/**
 * The code-aware token filters: each splits the text of every token it
 * receives and emits, besides or instead of the token, one sub-token per
 * part, at the same position and with offsets found by `indexOf`.
 * WordSplitTokenizer splits at characters that cannot be part of a word,
 * DotSplitTokenizer at dots, CamelCaseTokenizer at camel humps and
 * underscores. The analyzers chain them and drop tokens by length.
 */
module Tokenizers {
  import opened Strings

  /** A token: its text, its start and end offsets, and its position increment. */
  datatype Token = Token(text: string, start: int, end: int, posInc: int)

  /** The three splitting filters. */
  datatype Splitter = WordSplit | DotSplit | CamelCase

  /** A character of `[A-Za-z0-9à-ÿ_'.]`. */
  predicate IsWordChar(c: char)
  {
    IsUpperLetter(c) || IsLowerLetter(c) || IsDigit(c)
    || ('\U{00E0}' <= c <= '\U{00FF}') || c == '_' || c == '\'' || c == '.'
  }

  /** WordSplitTokenizer's separator class, `[^A-Za-z0-9à-ÿ_'.]`. */
  predicate IsWordBreak(c: char) { !IsWordChar(c) }

  predicate IsDot(c: char) { c == '.' }

  predicate IsUnderscore(c: char) { c == '_' }

  predicate IsNotUnderscore(c: char) { c != '_' }

  /** `replaceAll("([A-Z][a-z])", "_$1")`: an underscore before every capital followed by a small letter. */
  function MarkHumps(s: string): string
    decreases |s|
  {
    if s == [] then []
    else if |s| >= 2 && IsUpperLetter(s[0]) && IsLowerLetter(s[1]) then "_" + s[..2] + MarkHumps(s[2..])
    else [s[0]] + MarkHumps(s[1..])
  }

  /** `replaceAll("([a-z])([A-Z])", "$1_$2")`: an underscore between a small letter and a capital. */
  function MarkBoundaries(s: string): string
    decreases |s|
  {
    if s == [] then []
    else if |s| >= 2 && IsLowerLetter(s[0]) && IsUpperLetter(s[1]) then [s[0], '_', s[1]] + MarkBoundaries(s[2..])
    else [s[0]] + MarkBoundaries(s[1..])
  }

  /** splitTerm of each filter. */
  function SplitTerm(k: Splitter, term: string): seq<string>
  {
    match k
    case WordSplit => Split(term, IsWordBreak)
    case DotSplit => Split(term, IsDot)
    case CamelCase => Split(MarkBoundaries(MarkHumps(term)), IsUnderscore)
  }

  /** returnOriginalTerm: the base filter replaces the token, the dot and camel-case filters keep it. */
  predicate ReturnOriginal(k: Splitter)
  {
    k != WordSplit
  }

  /** The sub-token for one part: at the part's first occurrence in the parent's text, same position. */
  function SubToken(parent: Token, part: string): Token
  {
    var pos := parent.start + IndexOf(parent.text, part);
    Token(part, pos, pos + |part|, 0)
  }

  /** splitIntoTokens: a sub-token per part, in order, when the text splits into more than one part. */
  function SubTokens(k: Splitter, parent: Token): seq<Token>
  {
    var parts := SplitTerm(k, parent.text);
    if |parts| > 1 then seq(|parts|, i requires 0 <= i < |parts| => SubToken(parent, parts[i])) else []
  }

  /** What the filter emits for one input token. */
  function Emitted(k: Splitter, t: Token): seq<Token>
  {
    var subs := SubTokens(k, t);
    if subs == [] then [t]
    else if ReturnOriginal(k) then [t] + subs
    else subs
  }

  /** What the filter emits for a stream of input tokens. */
  function Output(k: Splitter, ts: seq<Token>): seq<Token>
  {
    FlatMap(ts, Emit(k))
  }

  /** Emitted, as a function of the token alone. */
  function Emit(k: Splitter): Token -> seq<Token>
  {
    t => Emitted(k, t)
  }

  /** The lists `f` gives for the elements of `ts`, one after another. */
  function FlatMap<T, U>(ts: seq<T>, f: T -> seq<U>): seq<U>
  {
    if ts == [] then [] else f(ts[0]) + FlatMap(ts[1..], f)
  }

  /** A TermSplitTokenizer over the tokens its input stream has left. */
  class TermSplitFilter {
    const kind: Splitter
    /** The tokens the input stream has not delivered yet. */
    var input: seq<Token>
    /** The sub-tokens waiting to be emitted. */
    var queue: seq<Token>
    /** The shared term, offset and position-increment attributes. */
    var current: Token

    constructor (kind: Splitter, input: seq<Token>)
      ensures this.kind == kind && this.input == input && queue == []
      ensures current == Token("", 0, 0, 1)
    {
      this.kind := kind;
      this.input := input;
      queue := [];
      current := Token("", 0, 0, 1);
    }

    /** The tokens still to come: the queue, then the output for the rest of the input. */
    ghost function Pending(): seq<Token>
      reads this
    {
      queue + Output(kind, input)
    }

    /**
     * incrementToken: a queued sub-token first; otherwise the next input
     * token, split, and replaced by its first part unless the original is
     * returned; false only when both are used up.
     */
    method IncrementToken() returns (more: bool)
      modifies this
      ensures !more <==> old(queue) == [] && old(input) == []
      ensures !more ==> queue == old(queue) && input == old(input) && current == old(current)
      ensures old(queue) != [] ==>
        current == old(queue)[0] && queue == old(queue)[1..] && input == old(input)
      ensures old(queue) == [] && old(input) != [] ==>
        var t := old(input)[0];
        var subs := SubTokens(kind, t);
        input == old(input)[1..]
        && (if subs != [] && !ReturnOriginal(kind) then current == subs[0] && queue == subs[1..]
            else current == t && queue == subs)
      ensures more ==> [current] + Pending() == old(Pending())
      ensures more ==> |input| < |old(input)| || (input == old(input) && |queue| < |old(queue)|)
    {
      if queue != [] {
        ghost var q := queue;
        current := queue[0];
        queue := queue[1..];
        more := true;
        assert [current] + queue == q;
        ConsAppend(current, queue, q, Output(kind, input));
      } else if input != [] {
        ghost var ts := input;
        current := input[0];
        input := input[1..];
        SplitIntoTokens();
        assert queue == SubTokens(kind, ts[0]);
        EmittedHead(kind, ts[0]);
        if queue != [] && !ReturnOriginal(kind) {
          current := queue[0];
          queue := queue[1..];
        }
        more := true;
        PendingAfterSplit(kind, ts, current, queue);
      } else {
        more := false;
      }
    }

    /** splitIntoTokens: queues a sub-token per part of the current term when it has several parts. */
    method SplitIntoTokens()
      modifies this
      ensures queue == old(queue) + SubTokens(kind, current)
      ensures input == old(input) && current == old(current)
    {
      var term := current.text;
      var parts := SplitTerm(kind, term);
      ghost var subs := SubTokens(kind, current);
      if |parts| > 1 {
        assert |subs| == |parts| && forall i :: 0 <= i < |parts| ==> subs[i] == SubToken(current, parts[i]);
        for i := 0 to |parts|
          invariant input == old(input) && current == old(current)
          invariant queue == old(queue) + subs[..i]
        {
          var pos := current.start + IndexOf(term, parts[i]);
          var sub := Token(parts[i], pos, pos + |parts[i]|, 0);
          assert sub == subs[i];
          TakeOneMore(subs, i);
          queue := queue + [sub];
        }
        assert subs[..|parts|] == subs;
      } else {
        assert subs == [];
      }
    }

    /** Pulls every remaining token, in order: exactly the tokens that were pending. */
    method Drain() returns (out: seq<Token>)
      modifies this
      ensures out == old(Pending())
      ensures queue == [] && input == []
    {
      out := [];
      while queue != [] || input != []
        invariant out + Pending() == old(Pending())
        decreases |input|, |queue|
      {
        ghost var before := Pending();
        var more := IncrementToken();
        assert more;
        SnocAppend(out, current, Pending(), before);
        out := out + [current];
      }
    }
  }

  // ---------------------------------------------------------------- properties

  /**
   * Sub-tokens exist only for a text of several parts: one per part, in
   * split order, at position increment 0, starting where `indexOf` first
   * finds the part in the parent and as long as the part.
   */
  lemma SubTokensShape(k: Splitter, t: Token)
    ensures var parts := SplitTerm(k, t.text);
      var subs := SubTokens(k, t);
      (|parts| <= 1 ==> subs == [])
      && (|parts| > 1 ==>
            |subs| == |parts|
            && forall i :: 0 <= i < |parts| ==>
                 subs[i].text == parts[i] && subs[i].posInc == 0
                 && subs[i].start == t.start + IndexOf(t.text, parts[i])
                 && subs[i].end == subs[i].start + |parts[i]|)
  {
  }

  /**
   * For the word and dot filters every part occurs in the parent's text, so
   * a sub-token's offsets, taken relative to the parent's start, frame its
   * own text inside the parent's.
   */
  lemma SubTokensFramed(k: Splitter, t: Token, i: nat)
    requires k != CamelCase && i < |SubTokens(k, t)|
    ensures var s := SubTokens(k, t)[i];
      t.start <= s.start <= s.end <= t.start + |t.text|
      && t.text[s.start - t.start..s.end - t.start] == s.text
  {
    var parts := SplitTerm(k, t.text);
    var sep := if k == WordSplit then IsWordBreak else IsDot;
    assert parts == Split(t.text, sep);
    SplitPartsOccur(t.text, sep, i);
    var j := IndexOf(t.text, parts[i]);
    assert j != -1;
  }

  /**
   * With returnOriginalTerm the parent comes first and its parts follow;
   * without it the parts replace the parent. A token of one part is
   * emitted alone, as it came.
   */
  lemma EmittedOrder(k: Splitter, t: Token)
    ensures SubTokens(k, t) == [] ==> Emitted(k, t) == [t]
    ensures SubTokens(k, t) != [] && ReturnOriginal(k) ==> Emitted(k, t) == [t] + SubTokens(k, t)
    ensures SubTokens(k, t) != [] && !ReturnOriginal(k) ==> Emitted(k, t) == SubTokens(k, t) && t !in Emitted(k, t)
  {
    var subs := SubTokens(k, t);
    if subs != [] && !ReturnOriginal(k) {
      SubTokensShape(k, t);
      if t in subs {
        var i :| 0 <= i < |subs| && subs[i] == t;
        assert t.posInc == 0;
        SplitPartsHaveNoSeparator(t.text, IsWordBreak);
        WordPartsShorter(t.text, i);
        assert false;
      }
    }
  }

  /** When a word splits into several parts, each part is shorter than the word. */
  lemma WordPartsShorter(s: string, i: nat)
    requires |Split(s, IsWordBreak)| > 1 && i < |Split(s, IsWordBreak)|
    ensures |Split(s, IsWordBreak)[i]| < |s|
  {
    var parts := Split(s, IsWordBreak);
    SplitPartsOccur(s, IsWordBreak, i);
    if |parts[i]| == |s| {
      var j :| OccursAt(s, parts[i], j);
      assert j == 0 && parts[i] == s;
      SplitPartsHaveNoSeparator(s, IsWordBreak);
      assert !HasSeparator(s, IsWordBreak);
      SplitWithoutSeparator(s, IsWordBreak);
      assert false;
    }
  }

  /** The first token emitted for `t`, and the ones queued after it. */
  lemma EmittedHead(k: Splitter, t: Token)
    ensures var subs := SubTokens(k, t);
      if subs != [] && !ReturnOriginal(k) then Emitted(k, t) == [subs[0]] + subs[1..]
      else Emitted(k, t) == [t] + subs
  {
  }

  /** Taking the next input token hands out what it emits, first token and queue. */
  lemma PendingAfterSplit(k: Splitter, ts: seq<Token>, current: Token, queue: seq<Token>)
    requires ts != [] && [current] + queue == Emitted(k, ts[0])
    ensures [current] + (queue + Output(k, ts[1..])) == Output(k, ts)
  {
    var rest := Output(k, ts[1..]);
    assert Output(k, ts) == Emitted(k, ts[0]) + rest;
    ConsAppend(current, queue, Emitted(k, ts[0]), rest);
  }

  lemma SnocAppend<T>(xs: seq<T>, x: T, p: seq<T>, q: seq<T>)
    requires [x] + p == q
    ensures (xs + [x]) + p == xs + q
  {
    assert (xs + [x]) + p == xs + ([x] + p);
  }

  lemma TakeOneMore<T>(s: seq<T>, i: nat)
    requires i < |s|
    ensures s[..i + 1] == s[..i] + [s[i]]
  {
  }

  lemma ConsAppend<T>(x: T, xs: seq<T>, e: seq<T>, rest: seq<T>)
    requires [x] + xs == e
    ensures [x] + (xs + rest) == e + rest
  {
    assert [x] + (xs + rest) == ([x] + xs) + rest;
  }

  lemma {:induction false} FlatMapAppend<T, U>(a: seq<T>, b: seq<T>, f: T -> seq<U>)
    ensures FlatMap(a + b, f) == FlatMap(a, f) + FlatMap(b, f)
    decreases |a|
  {
    if a == [] {
      assert a + b == b;
    } else {
      assert (a + b)[0] == a[0] && (a + b)[1..] == a[1..] + b;
      FlatMapAppend(a[1..], b, f);
    }
  }

  /** The output of a stream is the output of its parts one after another. */
  lemma OutputAppend(k: Splitter, a: seq<Token>, b: seq<Token>)
    ensures Output(k, a + b) == Output(k, a) + Output(k, b)
  {
    FlatMapAppend(a, b, Emit(k));
  }

  // ---------------------------------------------------------------- the splitters

  /** A text without a dot is one part, so the dot filter passes its token through alone. */
  lemma DotlessTermPassesThrough(t: Token)
    requires '.' !in t.text && t.text != ""
    ensures SplitTerm(DotSplit, t.text) == [t.text]
    ensures Emitted(DotSplit, t) == [t]
  {
    assert !HasSeparator(t.text, IsDot);
    SplitWithoutSeparator(t.text, IsDot);
  }

  /** Three dot-free names joined by dots, as in "com.app.Foo", split into those names. */
  lemma DottedNameParts(a: string, b: string, c: string)
    requires '.' !in a && '.' !in b && '.' !in c && c != ""
    ensures SplitTerm(DotSplit, a + "." + b + "." + c) == [a, b, c]
  {
    assert !HasSeparator(a, IsDot) && !HasSeparator(b, IsDot) && !HasSeparator(c, IsDot);
    PiecesWithoutSeparator(c, IsDot);
    PiecesAfterWord(b, '.', c, IsDot);
    PiecesAfterWord(a, '.', b + [ '.' ] + c, IsDot);
    assert a + "." + b + "." + c == a + ['.'] + (b + ['.'] + c);
  }

  /** A text made only of word characters is one part: dots, underscores and apostrophes stay inside. */
  lemma WordCharsStayTogether(t: Token)
    requires t.text != "" && forall i :: 0 <= i < |t.text| ==> IsWordChar(t.text[i])
    ensures SplitTerm(WordSplit, t.text) == [t.text]
    ensures Emitted(WordSplit, t) == [t]
  {
    SplitWithoutSeparator(t.text, IsWordBreak);
  }

  /** Joining texts that agree once underscores are dropped gives texts that agree. */
  lemma FilterJoin(p: string, q: string, r: string, t: string)
    requires Filter(p, IsNotUnderscore) == Filter(q, IsNotUnderscore)
    requires Filter(r, IsNotUnderscore) == Filter(t, IsNotUnderscore)
    ensures Filter(p + r, IsNotUnderscore) == Filter(q + t, IsNotUnderscore)
  {
    FilterAppend(p, r, IsNotUnderscore);
    FilterAppend(q, t, IsNotUnderscore);
  }

  /** An underscore put in front changes nothing once underscores are dropped. */
  lemma FilterUnderscoreFirst(s: string)
    ensures Filter("_" + s, IsNotUnderscore) == Filter(s, IsNotUnderscore)
  {
    assert ("_" + s)[1..] == s;
  }

  /** The camel-case marks only insert underscores: without underscores the text is unchanged. */
  lemma {:induction false} MarkHumpsInsertsUnderscores(s: string)
    ensures Filter(MarkHumps(s), IsNotUnderscore) == Filter(s, IsNotUnderscore)
    decreases |s|
  {
    if s != [] {
      if |s| >= 2 && IsUpperLetter(s[0]) && IsLowerLetter(s[1]) {
        MarkHumpsInsertsUnderscores(s[2..]);
        FilterUnderscoreFirst(s[..2]);
        FilterJoin("_" + s[..2], s[..2], MarkHumps(s[2..]), s[2..]);
        assert s[..2] + s[2..] == s;
      } else {
        MarkHumpsInsertsUnderscores(s[1..]);
        FilterJoin([s[0]], [s[0]], MarkHumps(s[1..]), s[1..]);
        assert [s[0]] + s[1..] == s;
      }
    }
  }

  lemma {:induction false} MarkBoundariesInsertsUnderscores(s: string)
    ensures Filter(MarkBoundaries(s), IsNotUnderscore) == Filter(s, IsNotUnderscore)
    decreases |s|
  {
    if s != [] {
      if |s| >= 2 && IsLowerLetter(s[0]) && IsUpperLetter(s[1]) {
        MarkBoundariesInsertsUnderscores(s[2..]);
        FilterUnderscoreFirst([s[1]]);
        FilterJoin([s[0]], [s[0]], "_" + [s[1]], [s[1]]);
        assert [s[0], '_', s[1]] == [s[0]] + ("_" + [s[1]]);
        assert s[..2] == [s[0]] + [s[1]];
        FilterJoin([s[0], '_', s[1]], s[..2], MarkBoundaries(s[2..]), s[2..]);
        assert s[..2] + s[2..] == s;
      } else {
        MarkBoundariesInsertsUnderscores(s[1..]);
        FilterJoin([s[0]], [s[0]], MarkBoundaries(s[1..]), s[1..]);
        assert [s[0]] + s[1..] == s;
      }
    }
  }

  /**
   * The camel-case parts hold no underscore, and the text the parts are cut
   * from is the term with underscores inserted only: without underscores
   * the two are the same.
   */
  lemma CamelCaseParts(term: string)
    ensures var marked := MarkBoundaries(MarkHumps(term));
      Filter(marked, IsNotUnderscore) == Filter(term, IsNotUnderscore)
      && SplitTerm(CamelCase, term) == Split(marked, IsUnderscore)
      && forall i :: 0 <= i < |SplitTerm(CamelCase, term)| ==> '_' !in SplitTerm(CamelCase, term)[i]
  {
    var marked := MarkBoundaries(MarkHumps(term));
    MarkHumpsInsertsUnderscores(term);
    MarkBoundariesInsertsUnderscores(MarkHumps(term));
    SplitPartsHaveNoSeparator(marked, IsUnderscore);
  }

  /**
   * A term that starts with a hump ("FooBar" is marked "_Foo_Bar") splits
   * into several parts of which the first is empty, so the camel-case
   * filter emits an empty sub-token at the term's start, which only the
   * length filter removes.
   */
  lemma LeadingHumpGivesEmptyPart(t: Token)
    requires |t.text| >= 2 && IsUpperLetter(t.text[0]) && IsLowerLetter(t.text[1])
    ensures |SplitTerm(CamelCase, t.text)| >= 2 && SplitTerm(CamelCase, t.text)[0] == ""
    ensures SubTokens(CamelCase, t)[0] == Token("", t.start, t.start, 0)
  {
    var term := t.text;
    var m := MarkHumps(term);
    assert m == "_" + term[..2] + MarkHumps(term[2..]);
    assert m[0] == '_' && m[1] == term[0];
    var marked := MarkBoundaries(m);
    assert marked == [m[0]] + MarkBoundaries(m[1..]);
    assert MarkBoundaries(m[1..]) == [m[1]] + MarkBoundaries(m[2..]);
    assert marked[1..] == [term[0]] + MarkBoundaries(m[2..]);
    var parts := Pieces(marked, IsUnderscore);
    var rest := Pieces(marked[1..], IsUnderscore);
    assert parts == [""] + rest;
    assert rest[0] != "";
    var r := DropTrailingEmpty(parts);
    assert Split(marked, IsUnderscore) == r;
    assert parts[1] == rest[0] != "";
    assert |r| >= 2;
    assert IndexOf(term, "") == 0 by {
      assert OccursAt(term, "", 0);
    }
  }

  // ---------------------------------------------------------------- the analyzer chain

  /** LengthFilter: the tokens whose text has between `min` and `max` characters. */
  function LengthFilter(ts: seq<Token>, min: int, max: int): seq<Token>
  {
    if ts == [] then []
    else (if min <= |ts[0].text| <= max then [ts[0]] else []) + LengthFilter(ts[1..], min, max)
  }

  /** LowerCaseFilter, on ASCII letters. */
  function LowerTokens(ts: seq<Token>): seq<Token>
  {
    seq(|ts|, i requires 0 <= i < |ts| => ts[i].(text := Lower(ts[i].text)))
  }

  /** The longest token the analyzers keep. */
  const MaxWordLength := 128

  /**
   * The chain both analyzers build over the standard tokenizer's tokens:
   * word split, dot split, camel case, then the length filter; the file
   * analyzer lower-cases at the end, the query analyzer does not.
   */
  function Analyze(ts: seq<Token>, minWordLength: int, lowerCase: bool): seq<Token>
  {
    var split := Output(CamelCase, Output(DotSplit, Output(WordSplit, ts)));
    var kept := LengthFilter(split, minWordLength, MaxWordLength);
    if lowerCase then LowerTokens(kept) else kept
  }

  lemma {:induction false} LengthFilterBounds(ts: seq<Token>, min: int, max: int)
    ensures forall t :: t in LengthFilter(ts, min, max) ==> t in ts && min <= |t.text| <= max
    decreases |ts|
  {
    if ts != [] {
      LengthFilterBounds(ts[1..], min, max);
    }
  }

  /**
   * Every token the chain keeps has between `minWordLength` and 128
   * characters, so the empty parts a split can make are dropped; with
   * lower-casing no capital letter is left.
   */
  lemma AnalyzedTokens(ts: seq<Token>, minWordLength: int, lowerCase: bool)
    ensures forall t :: t in Analyze(ts, minWordLength, lowerCase) ==>
      minWordLength <= |t.text| <= MaxWordLength
      && (lowerCase ==> forall i :: 0 <= i < |t.text| ==> !IsUpperLetter(t.text[i]))
  {
    var split := Output(CamelCase, Output(DotSplit, Output(WordSplit, ts)));
    var kept := LengthFilter(split, minWordLength, MaxWordLength);
    LengthFilterBounds(split, minWordLength, MaxWordLength);
    if lowerCase {
      forall t | t in Analyze(ts, minWordLength, lowerCase)
        ensures minWordLength <= |t.text| <= MaxWordLength
      {
        var i :| 0 <= i < |kept| && LowerTokens(kept)[i] == t;
        assert kept[i] in kept;
      }
    }
  }
}
