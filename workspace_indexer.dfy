/**
 * The parts of the workspace indexer that decide what gets indexed: the
 * conversion of the excluded-folder wildcard patterns into regular
 * expressions, and the allow-list of file extensions.
 */
module WorkspaceIndexing {
  import opened Strings

  // ------------------------------------------------------------ wildcardToRegex

  /** The marker "**" is swapped for while the single "*" is rewritten. */
  const DoubleStarMark: string := "<double-star>"

  /** What the "." step writes: the replacement string "\\." of the source is a plain ".". */
  const DotAsWritten: string := "."

  /** The escaped dot the "." step is meant to write. */
  const EscapedDot: string := "\\."

  /** The steps after the first: ".", "*", "?" and then the "**" marker. */
  function LaterSteps(s1: string, dot: string): string
  {
    var s2 := ReplaceAll(s1, ".", dot);
    var s3 := ReplaceAll(s2, "*", "[^/]*");
    var s4 := ReplaceAll(s3, "?", ".");
    ReplaceAll(s4, DoubleStarMark, ".*")
  }

  /** The chain of five replaceAll calls, with the "." step writing `dot`. */
  function RegexChain(p: string, dot: string): string
  {
    LaterSteps(ReplaceAll(p, "**", DoubleStarMark), dot)
  }

  /** wildcardToRegex as written: the "." step leaves every dot as it was. */
  function WildcardToRegexAsWritten(p: string): string
  {
    RegexChain(p, DotAsWritten)
  }

  /** wildcardToRegex with the dot escaped, as its "escape ." comment intends. */
  function WildcardToRegex(p: string): string
  {
    RegexChain(p, EscapedDot)
  }

  /**
   * The same translation read in one pass from the left: "**" before "*",
   * then "?", then "." (written as `dot`); other characters stay.
   */
  function Translate(p: string, dot: string): (r: string)
    decreases |p|
  {
    if p == [] then []
    else if |p| >= 2 && p[..2] == "**" then ".*" + Translate(p[2..], dot)
    else if p[0] == '*' then "[^/]*" + Translate(p[1..], dot)
    else if p[0] == '?' then "." + Translate(p[1..], dot)
    else if p[0] == '.' then dot + Translate(p[1..], dot)
    else [p[0]] + Translate(p[1..], dot)
  }

  /**
   * The characters a pattern may hold for the regex to mean what its
   * translation says: none of the regular-expression metacharacters the
   * translation leaves alone, and no "<" that could spell the marker.
   */
  predicate IsPlainChar(c: char)
  {
    !(c in "\\[](){}^$|+<")
  }

  predicate IsPlainPattern(p: string)
  {
    forall i :: 0 <= i < |p| ==> IsPlainChar(p[i])
  }

  /**
   * Pattern.matcher(s).matches() for the regexes the translation produces:
   * ".*" any run of characters other than line terminators, "[^/]*" any
   * run of characters other than "/", "\." a dot, "." one character other
   * than a line terminator, and any other character itself.
   */
  function Matches(re: string, s: string): bool
    decreases |re|, |s|
  {
    if re == [] then s == []
    else if |re| >= 2 && re[..2] == ".*" then
      Matches(re[2..], s) || (s != [] && !IsLineTerminator(s[0]) && Matches(re, s[1..]))
    else if |re| >= 5 && re[..5] == "[^/]*" then
      Matches(re[5..], s) || (s != [] && s[0] != '/' && Matches(re, s[1..]))
    else if |re| >= 2 && re[..2] == EscapedDot then
      s != [] && s[0] == '.' && Matches(re[2..], s[1..])
    else if re[0] == '.' then
      s != [] && !IsLineTerminator(s[0]) && Matches(re[1..], s[1..])
    else
      s != [] && s[0] == re[0] && Matches(re[1..], s[1..])
  }

  /**
   * What an excluded-folder pattern means: "**" any run of characters
   * across folders, "*" any run within one folder (no "/"), "?" one
   * character, and every other character itself, the dot included.
   */
  function Glob(p: string, s: string): bool
    decreases |p|, |s|
  {
    if p == [] then s == []
    else if |p| >= 2 && p[..2] == "**" then
      Glob(p[2..], s) || (s != [] && !IsLineTerminator(s[0]) && Glob(p, s[1..]))
    else if p[0] == '*' then
      Glob(p[1..], s) || (s != [] && s[0] != '/' && Glob(p, s[1..]))
    else if p[0] == '?' then
      s != [] && !IsLineTerminator(s[0]) && Glob(p[1..], s[1..])
    else
      s != [] && s[0] == p[0] && Glob(p[1..], s[1..])
  }

  /** The pattern with each dot read as "?". */
  function DotsAsAnyChar(p: string): (r: string)
    ensures |r| == |p|
    ensures forall i :: 0 <= i < |p| ==> r[i] == (if p[i] == '.' then '?' else p[i])
  {
    seq(|p|, i requires 0 <= i < |p| => if p[i] == '.' then '?' else p[i])
  }

  // ---------------------------------------------------- replaceAll step lemmas

  /** Replacing a text by itself changes nothing: the source's "." step. */
  lemma {:induction false} ReplaceAllSelf(s: string, pattern: string)
    requires |pattern| > 0
    ensures ReplaceAll(s, pattern, pattern) == s
    decreases |s|
  {
    if |s| >= |pattern| {
      if s[..|pattern|] == pattern {
        ReplaceAllSelf(s[|pattern|..], pattern);
        assert s == s[..|pattern|] + s[|pattern|..];
      } else {
        ReplaceAllSelf(s[1..], pattern);
        assert s == [s[0]] + s[1..];
      }
    }
  }

  /** A prefix none of whose characters starts the pattern passes through. */
  lemma {:induction false} ReplaceAllPassPrefix(a: string, b: string, pattern: string, replacement: string)
    requires |pattern| > 0
    requires forall i :: 0 <= i < |a| ==> a[i] != pattern[0]
    ensures ReplaceAll(a + b, pattern, replacement) == a + ReplaceAll(b, pattern, replacement)
    decreases |a|
  {
    if a != [] {
      var s := a + b;
      var tail := ReplaceAll(b, pattern, replacement);
      assert s[0] == a[0] && s[1..] == a[1..] + b;
      ReplaceAllPassPrefix(a[1..], b, pattern, replacement);
      assert a == [a[0]] + a[1..];
      if |s| >= |pattern| {
        assert s[..|pattern|][0] == a[0];
        assert ReplaceAll(s, pattern, replacement) == [a[0]] + (a[1..] + tail);
        assert [a[0]] + (a[1..] + tail) == a + tail;
      } else {
        assert tail == b;
        assert ReplaceAll(s, pattern, replacement) == s;
      }
      assert ReplaceAll(a + b, pattern, replacement) == a + tail;
    } else {
      assert a + b == b;
    }
  }

  /** A string that does not start with the pattern keeps its first character. */
  lemma ReplaceAllSkip(s: string, pattern: string, replacement: string)
    requires |pattern| > 0 && s != []
    requires !(|s| >= |pattern| && s[..|pattern|] == pattern)
    ensures ReplaceAll(s, pattern, replacement) == [s[0]] + ReplaceAll(s[1..], pattern, replacement)
  {
    if |s| < |pattern| {
      assert ReplaceAll(s[1..], pattern, replacement) == s[1..];
      assert s == [s[0]] + s[1..];
    }
  }

  /** A string that starts with the pattern has it replaced. */
  lemma ReplaceAllMatch(b: string, pattern: string, replacement: string)
    requires |pattern| > 0
    ensures ReplaceAll(pattern + b, pattern, replacement) == replacement + ReplaceAll(b, pattern, replacement)
  {
    var s := pattern + b;
    assert s[..|pattern|] == pattern && s[|pattern|..] == b;
  }

  /** A character that starts none of the later patterns passes all later steps. */
  lemma LaterStepsSkip(c: char, rest: string, dot: string)
    requires c != '.' && c != '*' && c != '?' && c != '<'
    ensures LaterSteps([c] + rest, dot) == [c] + LaterSteps(rest, dot)
  {
    ReplaceAllPassPrefix([c], rest, ".", dot);
    var s2 := ReplaceAll(rest, ".", dot);
    ReplaceAllPassPrefix([c], s2, "*", "[^/]*");
    var s3 := ReplaceAll(s2, "*", "[^/]*");
    ReplaceAllPassPrefix([c], s3, "?", ".");
    var s4 := ReplaceAll(s3, "?", ".");
    ReplaceAllPassPrefix([c], s4, DoubleStarMark, ".*");
  }

  /** A "?" left by the first step becomes "." and nothing after touches it. */
  lemma LaterStepsQuestion(rest: string, dot: string)
    ensures LaterSteps("?" + rest, dot) == "." + LaterSteps(rest, dot)
  {
    ReplaceAllPassPrefix("?", rest, ".", dot);
    var s2 := ReplaceAll(rest, ".", dot);
    ReplaceAllPassPrefix("?", s2, "*", "[^/]*");
    var s3 := ReplaceAll(s2, "*", "[^/]*");
    ReplaceAllMatch(s3, "?", ".");
    var s4 := ReplaceAll(s3, "?", ".");
    ReplaceAllPassPrefix(".", s4, DoubleStarMark, ".*");
  }

  /** A dot becomes `dot`, which no later step touches. */
  lemma LaterStepsDot(rest: string, dot: string)
    requires dot == DotAsWritten || dot == EscapedDot
    ensures LaterSteps("." + rest, dot) == dot + LaterSteps(rest, dot)
  {
    ReplaceAllMatch(rest, ".", dot);
    var s2 := ReplaceAll(rest, ".", dot);
    ReplaceAllPassPrefix(dot, s2, "*", "[^/]*");
    var s3 := ReplaceAll(s2, "*", "[^/]*");
    ReplaceAllPassPrefix(dot, s3, "?", ".");
    var s4 := ReplaceAll(s3, "?", ".");
    ReplaceAllPassPrefix(dot, s4, DoubleStarMark, ".*");
  }

  /** A single "*" becomes "[^/]*". */
  lemma LaterStepsStar(rest: string, dot: string)
    ensures LaterSteps("*" + rest, dot) == "[^/]*" + LaterSteps(rest, dot)
  {
    ReplaceAllPassPrefix("*", rest, ".", dot);
    var s2 := ReplaceAll(rest, ".", dot);
    ReplaceAllMatch(s2, "*", "[^/]*");
    var s3 := ReplaceAll(s2, "*", "[^/]*");
    ReplaceAllPassPrefix("[^/]*", s3, "?", ".");
    var s4 := ReplaceAll(s3, "?", ".");
    ReplaceAllPassPrefix("[^/]*", s4, DoubleStarMark, ".*");
  }

  /** The marker passes the middle steps and becomes ".*" at the last. */
  lemma LaterStepsMark(rest: string, dot: string)
    ensures LaterSteps(DoubleStarMark + rest, dot) == ".*" + LaterSteps(rest, dot)
  {
    ReplaceAllPassPrefix(DoubleStarMark, rest, ".", dot);
    var s2 := ReplaceAll(rest, ".", dot);
    ReplaceAllPassPrefix(DoubleStarMark, s2, "*", "[^/]*");
    var s3 := ReplaceAll(s2, "*", "[^/]*");
    ReplaceAllPassPrefix(DoubleStarMark, s3, "?", ".");
    var s4 := ReplaceAll(s3, "?", ".");
    ReplaceAllMatch(s4, DoubleStarMark, ".*");
  }

  /**
   * The five replaceAll calls equal the one-pass translation: "**" becomes
   * ".*" (it is taken before "*"), "*" becomes "[^/]*", "?" becomes ".",
   * a dot becomes `dot`, and a pattern without "<" keeps everything else.
   */
  lemma {:induction false} RegexChainIsTranslate(p: string, dot: string)
    requires forall i :: 0 <= i < |p| ==> p[i] != '<'
    requires dot == DotAsWritten || dot == EscapedDot
    ensures RegexChain(p, dot) == Translate(p, dot)
    decreases |p|
  {
    if p != [] {
      if |p| >= 2 && p[..2] == "**" {
        assert p == "**" + p[2..];
        ReplaceAllMatch(p[2..], "**", DoubleStarMark);
        LaterStepsMark(ReplaceAll(p[2..], "**", DoubleStarMark), dot);
        RegexChainIsTranslate(p[2..], dot);
      } else {
        ReplaceAllSkip(p, "**", DoubleStarMark);
        var rest := ReplaceAll(p[1..], "**", DoubleStarMark);
        assert ReplaceAll(p, "**", DoubleStarMark) == [p[0]] + rest;
        if p[0] == '*' {
          LaterStepsStar(rest, dot);
        } else if p[0] == '?' {
          LaterStepsQuestion(rest, dot);
        } else if p[0] == '.' {
          LaterStepsDot(rest, dot);
        } else {
          LaterStepsSkip(p[0], rest, dot);
        }
        RegexChainIsTranslate(p[1..], dot);
      }
    }
  }

  /** Read as "?", a dot translates the same whichever way the "." step writes it. */
  lemma {:induction false} TranslateDotsAsAnyChar(p: string)
    ensures Translate(p, DotAsWritten) == Translate(DotsAsAnyChar(p), EscapedDot)
    decreases |p|
  {
    if p != [] {
      var q := DotsAsAnyChar(p);
      var k := if |p| >= 2 && p[..2] == "**" then 2 else 1;
      assert |q| >= 2 && q[..2] == "**" <==> |p| >= 2 && p[..2] == "**" by {
        if |p| >= 2 {
          assert q[..2][0] == q[0] && q[..2][1] == q[1];
          assert p[..2][0] == p[0] && p[..2][1] == p[1];
        }
      }
      assert q[k..] == DotsAsAnyChar(p[k..]);
      TranslateDotsAsAnyChar(p[k..]);
    }
  }

  // ------------------------------------------------------------ what it means

  /** No translation starts with "*", so "." followed by one is never read as ".*". */
  lemma TranslateHead(p: string, dot: string)
    requires dot == DotAsWritten || dot == EscapedDot
    ensures Translate(p, dot) == [] || Translate(p, dot)[0] != '*'
  {
  }

  /** Matching a regex that starts with ".*". */
  lemma MatchesAnyRun(tail: string, s: string)
    ensures Matches(".*" + tail, s)
         == (Matches(tail, s) || (s != [] && !IsLineTerminator(s[0]) && Matches(".*" + tail, s[1..])))
  {
    var re := ".*" + tail;
    assert re[..2] == ".*" && re[2..] == tail;
  }

  /** Matching a regex that starts with "[^/]*". */
  lemma MatchesFolderRun(tail: string, s: string)
    ensures Matches("[^/]*" + tail, s)
         == (Matches(tail, s) || (s != [] && s[0] != '/' && Matches("[^/]*" + tail, s[1..])))
  {
    var re := "[^/]*" + tail;
    assert re[..5] == "[^/]*" && re[5..] == tail;
    assert re[..2] != ".*" by { assert re[..2][0] == '['; }
  }

  /** Matching a regex that starts with "." not followed by "*". */
  lemma MatchesAnyChar(tail: string, s: string)
    requires tail == [] || tail[0] != '*'
    ensures Matches("." + tail, s) == (s != [] && !IsLineTerminator(s[0]) && Matches(tail, s[1..]))
  {
    var re := "." + tail;
    assert re[1..] == tail;
    assert |re| >= 2 ==> re[..2] != ".*" by {
      if |re| >= 2 { assert re[..2][1] == tail[0]; }
    }
    assert |re| >= 2 ==> re[..2] != EscapedDot by {
      if |re| >= 2 { assert re[..2][0] == '.'; }
    }
  }

  /** Matching a regex that starts with an escaped dot. */
  lemma MatchesDot(tail: string, s: string)
    ensures Matches(EscapedDot + tail, s) == (s != [] && s[0] == '.' && Matches(tail, s[1..]))
  {
    var re := EscapedDot + tail;
    assert re[..2] == EscapedDot && re[2..] == tail;
    assert re[..2] != ".*" by { assert re[..2][0] == '\\'; }
  }

  /** Matching a regex that starts with a plain character other than a dot. */
  lemma MatchesChar(c: char, tail: string, s: string)
    requires IsPlainChar(c) && c != '.'
    ensures Matches([c] + tail, s) == (s != [] && s[0] == c && Matches(tail, s[1..]))
  {
    var re := [c] + tail;
    assert re[1..] == tail;
    assert |re| >= 2 ==> re[..2] != ".*" && re[..2] != EscapedDot by {
      if |re| >= 2 { assert re[..2][0] == c; }
    }
    assert |re| >= 5 ==> re[..5] != "[^/]*" by {
      if |re| >= 5 { assert re[..5][0] == c; }
    }
  }

  /**
   * The corrected regex of a plain pattern matches exactly the paths the
   * pattern describes.
   */
  lemma {:induction false} TranslateMatchesGlob(p: string, s: string)
    requires IsPlainPattern(p)
    ensures Matches(Translate(p, EscapedDot), s) == Glob(p, s)
    decreases |p|, |s|
  {
    if p != [] {
      if |p| >= 2 && p[..2] == "**" {
        MatchesAnyRun(Translate(p[2..], EscapedDot), s);
        TranslateMatchesGlob(p[2..], s);
        if s != [] {
          TranslateMatchesGlob(p, s[1..]);
        }
      } else {
        var tail := Translate(p[1..], EscapedDot);
        if p[0] == '*' {
          MatchesFolderRun(tail, s);
          TranslateMatchesGlob(p[1..], s);
          if s != [] {
            TranslateMatchesGlob(p, s[1..]);
          }
        } else if p[0] == '?' {
          TranslateHead(p[1..], EscapedDot);
          MatchesAnyChar(tail, s);
          if s != [] {
            TranslateMatchesGlob(p[1..], s[1..]);
          }
        } else if p[0] == '.' {
          MatchesDot(tail, s);
          if s != [] {
            TranslateMatchesGlob(p[1..], s[1..]);
          }
        } else {
          assert IsPlainChar(p[0]);
          MatchesChar(p[0], tail, s);
          if s != [] {
            TranslateMatchesGlob(p[1..], s[1..]);
          }
        }
      }
    }
  }

  /** The corrected wildcardToRegex: its regex matches a path exactly when the pattern does. */
  lemma WildcardToRegexMeaning(p: string, s: string)
    requires IsPlainPattern(p)
    ensures Matches(WildcardToRegex(p), s) == Glob(p, s)
  {
    RegexChainIsTranslate(p, EscapedDot);
    TranslateMatchesGlob(p, s);
  }

  /** wildcardToRegex as written matches what the pattern would with each dot read as "?". */
  lemma WildcardToRegexAsWrittenMeaning(p: string, s: string)
    requires IsPlainPattern(p)
    ensures Matches(WildcardToRegexAsWritten(p), s) == Glob(DotsAsAnyChar(p), s)
  {
    RegexChainIsTranslate(p, DotAsWritten);
    TranslateDotsAsAnyChar(p);
    TranslateMatchesGlob(DotsAsAnyChar(p), s);
  }

  /** The pattern "a.b" does not describe the folder "axb"; "a?b" does. */
  lemma DotPatternExamples()
    ensures !Glob("a.b", "axb")
    ensures Glob("a?b", "axb")
  {
    var p, s := "a.b", "axb";
    assert p[1..] == ".b" && s[1..] == "xb";
    var q := ".b";
    assert q[0] == '.' && q[..2][0] == '.' && q[1..] == "b";
    assert !Glob(q, "xb");
    assert Glob("", "");
    assert Glob("b", "b");
    assert Glob("?b", "xb");
  }

  /** As written, the excluded pattern "a.b" also excludes the folder "axb". */
  lemma DotMatchesAnyCharacter()
    ensures Matches(WildcardToRegexAsWritten("a.b"), "axb")
    ensures !Glob("a.b", "axb")
  {
    var p := "a.b";
    assert IsPlainPattern(p);
    DotPatternExamples();
    WildcardToRegexAsWrittenMeaning(p, "axb");
    assert DotsAsAnyChar(p) == "a?b";
  }

  /** With the dot escaped, "a.b" no longer excludes "axb". */
  lemma EscapedDotMatchesOnlyDot()
    ensures !Matches(WildcardToRegex("a.b"), "axb")
  {
    var p := "a.b";
    assert IsPlainPattern(p);
    DotPatternExamples();
    WildcardToRegexMeaning(p, "axb");
  }

  // ------------------------------------------------------ the extension list

  /** The separators of the extension list: ",", "|", ";" and ":". */
  predicate IsListSeparator(c: char)
  {
    c == ',' || c == '|' || c == ';' || c == ':'
  }

  /** `s` without its first character when that is `c` (`startsWith` and `substring(1)`). */
  function StripLeading(s: string, c: char): string
  {
    if s != [] && s[0] == c then s[1..] else s
  }

  /** One entry of the list, lowercased and trimmed, without a leading "*" and then a leading ".". */
  function NormalizeExtension(entry: string): string
  {
    StripLeading(StripLeading(Trim(Lower(entry)), '*'), '.')
  }

  /** The entries of the list before normalisation; None where the source returns null. */
  function ExtensionEntries(list: Option<string>): Option<seq<string>>
  {
    if list.None? || list.value == "" || list.value == "*" then None
    else
      var entries := Split(ReplaceAll(list.value, " ", ""), IsListSeparator);
      if |entries| == 0 then None else Some(entries)
  }

  /** The image of every element under `f`, in order. */
  function MapAll<T>(s: seq<T>, f: T -> T): (r: seq<T>)
    ensures |r| == |s|
    ensures forall i :: 0 <= i < |s| ==> r[i] == f(s[i])
  {
    seq(|s|, i requires 0 <= i < |s| => f(s[i]))
  }

  /** The normalised entries, in list order. */
  function ExtensionParts(list: Option<string>): Option<seq<string>>
  {
    match ExtensionEntries(list)
    case None => None
    case Some(entries) => Some(MapAll(entries, NormalizeExtension))
  }

  predicate Sorted(s: seq<string>)
  {
    forall i, j :: 0 <= i < j < |s| ==> LessOrEqual(s[i], s[j])
  }

  /** Inserts into a sorted list before the first larger element. */
  function Insert(x: string, s: seq<string>): seq<string>
  {
    if s == [] || LessOrEqual(x, s[0]) then [x] + s else [s[0]] + Insert(x, s[1..])
  }

  /** Arrays.sort on strings. */
  function SortStrings(s: seq<string>): seq<string>
  {
    if s == [] then [] else Insert(s[0], SortStrings(s[1..]))
  }

  lemma {:induction false} InsertPermutes(x: string, s: seq<string>)
    ensures multiset(Insert(x, s)) == multiset([x] + s)
    decreases |s|
  {
    if s != [] && !LessOrEqual(x, s[0]) {
      InsertPermutes(x, s[1..]);
      assert s == [s[0]] + s[1..];
    }
  }

  lemma {:induction false} InsertSorted(x: string, s: seq<string>)
    requires Sorted(s)
    ensures Sorted(Insert(x, s))
    decreases |s|
  {
    if s == [] {
    } else if LessOrEqual(x, s[0]) {
      SortedCons(x, s);
    } else {
      LessOrEqualTotal(x, s[0]);
      InsertSorted(x, s[1..]);
      InsertPermutes(x, s[1..]);
      SortedConsAll(s[0], Insert(x, s[1..]), [x] + s[1..]);
    }
  }

  /** A first element no larger than the head of a sorted list keeps it sorted. */
  lemma SortedCons(x: string, s: seq<string>)
    requires Sorted(s) && s != [] && LessOrEqual(x, s[0])
    ensures Sorted([x] + s)
  {
    var r := [x] + s;
    forall i, j | 0 <= i < j < |r| ensures LessOrEqual(r[i], r[j]) {
      if i == 0 && j > 1 {
        LessOrEqualTransitive(x, s[0], s[j - 1]);
      }
    }
  }

  /** A first element no larger than every element of a sorted permutation of `u` keeps it sorted. */
  lemma SortedConsAll(y: string, t: seq<string>, u: seq<string>)
    requires Sorted(t) && multiset(t) == multiset(u)
    requires forall k :: 0 <= k < |u| ==> LessOrEqual(y, u[k])
    ensures Sorted([y] + t)
  {
    var r := [y] + t;
    forall i, j | 0 <= i < j < |r| ensures LessOrEqual(r[i], r[j]) {
      if i == 0 {
        assert t[j - 1] in multiset(u);
      }
    }
  }

  /** Arrays.sort leaves the list sorted and holding the same entries. */
  lemma {:induction false} SortStringsCorrect(s: seq<string>)
    ensures Sorted(SortStrings(s))
    ensures multiset(SortStrings(s)) == multiset(s)
    decreases |s|
  {
    if s != [] {
      SortStringsCorrect(s[1..]);
      InsertSorted(s[0], SortStrings(s[1..]));
      InsertPermutes(s[0], SortStrings(s[1..]));
      assert s == [s[0]] + s[1..];
    }
  }

  /** `r` is what getIndexableFileExtensions returns for `list`: the normalised entries, sorted. */
  predicate ParsedFrom(r: Option<seq<string>>, list: Option<string>)
  {
    r.None? == ExtensionParts(list).None? &&
    (r.Some? ==> Sorted(r.value) && multiset(r.value) == multiset(ExtensionParts(list).value))
  }

  /**
   * The loop of getIndexableFileExtensions: each entry replaced, in place,
   * by its image under `f` (the normalisation of an entry).
   */
  method MapInPlace<T>(a: array<T>, f: T -> T)
    modifies a
    ensures a[..] == MapAll(old(a[..]), f)
  {
    ghost var before := a[..];
    for i := 0 to a.Length
      invariant forall k :: 0 <= k < i ==> a[k] == f(before[k])
      invariant forall k :: i <= k < a.Length ==> a[k] == before[k]
    {
      a[i] := f(a[i]);
    }
  }

  /** getIndexableFileExtensions: normalises the entries of the split list in place, then sorts them. */
  method IndexableFileExtensions(list: Option<string>) returns (r: Option<seq<string>>)
    ensures ParsedFrom(r, list)
  {
    if list.None? || list.value == "" || list.value == "*" {
      return None;
    }
    var spaceless := ReplaceAll(list.value, " ", "");
    var entries := Split(spaceless, IsListSeparator);
    if |entries| == 0 {
      return None;
    }
    assert ExtensionEntries(list) == Some(entries);
    var extensions := new string[|entries|](i requires 0 <= i < |entries| => entries[i]);
    assert extensions[..] == entries;
    MapInPlace(extensions, NormalizeExtension);
    assert ExtensionParts(list) == Some(extensions[..]);
    SortStringsCorrect(extensions[..]);
    r := Some(SortStrings(extensions[..]));
  }

  /**
   * Arrays.binarySearch on [lo, hi): an index holding the key, or a
   * negative value. On a sorted list it finds the key whenever it is there.
   */
  function BinarySearch(a: seq<string>, key: string, lo: nat, hi: nat): (r: int)
    requires lo <= hi <= |a|
    requires Sorted(a)
    ensures r >= 0 ==> lo <= r < hi && a[r] == key
    ensures r < 0 ==> forall i :: lo <= i < hi ==> a[i] != key
    decreases hi - lo
  {
    if lo == hi then -(lo + 1)
    else
      var mid := (lo + hi) / 2;
      if a[mid] == key then mid
      else if LessOrEqual(a[mid], key) then
        NotAtOrBeforeSmaller(a, mid, key);
        BinarySearch(a, key, mid + 1, hi)
      else
        NotAtOrAfterGreater(a, mid, key);
        BinarySearch(a, key, lo, mid)
  }

  lemma NotAtOrBeforeSmaller(a: seq<string>, mid: nat, key: string)
    requires Sorted(a) && mid < |a|
    requires LessOrEqual(a[mid], key) && a[mid] != key
    ensures forall i :: 0 <= i <= mid ==> a[i] != key
  {
    forall i | 0 <= i <= mid ensures a[i] != key {
      if a[i] == key && i < mid {
        LessOrEqualAntisymmetric(a[mid], key);
      }
    }
  }

  lemma NotAtOrAfterGreater(a: seq<string>, mid: nat, key: string)
    requires Sorted(a) && mid < |a|
    requires !LessOrEqual(a[mid], key)
    ensures forall i :: mid <= i < |a| ==> a[i] != key
  {
    LessOrEqualTotal(a[mid], a[mid]);
  }

  /** The allow-list state of the workspace indexer. */
  class WorkspaceIndexer {
    /** The sorted allow-list, or None when every extension is indexable. */
    var fileExtensions: Option<seq<string>>
    var indexEmptyExtension: bool

    predicate Valid()
      reads this
    {
      fileExtensions.Some? ==> Sorted(fileExtensions.value)
    }

    /** The field initialisers: the list read from the preferences and the empty-extension flag. */
    constructor (extensionList: Option<string>, indexEmptyExtension: bool)
      ensures Valid()
      ensures ParsedFrom(fileExtensions, extensionList)
      ensures this.indexEmptyExtension == indexEmptyExtension
    {
      var parsed := IndexableFileExtensions(extensionList);
      fileExtensions := parsed;
      this.indexEmptyExtension := indexEmptyExtension;
    }

    /** propertyChange for the extension list. */
    method ExtensionListChanged(extensionList: Option<string>)
      modifies this
      ensures Valid()
      ensures ParsedFrom(fileExtensions, extensionList)
      ensures indexEmptyExtension == old(indexEmptyExtension)
    {
      fileExtensions := IndexableFileExtensions(extensionList);
    }

    /** propertyChange for the empty-extension flag. */
    method IndexEmptyExtensionChanged(indexEmptyExtension: bool)
      modifies this
      ensures fileExtensions == old(fileExtensions)
      ensures this.indexEmptyExtension == indexEmptyExtension
    {
      this.indexEmptyExtension := indexEmptyExtension;
    }

    /**
     * isIndexableExtension: everything without a list, the flag for a
     * missing or empty extension, else whether the lowercased extension is
     * listed.
     */
    function IsIndexableExtension(ext: Option<string>): (r: bool)
      reads this
      requires Valid()
      ensures (fileExtensions.None? || |fileExtensions.value| == 0) ==> r
      ensures fileExtensions.Some? && |fileExtensions.value| > 0 && (ext.None? || ext.value == "") ==> r == indexEmptyExtension
      ensures fileExtensions.Some? && ext.Some? && ext.value != "" && |fileExtensions.value| > 0 ==>
                (r <==> Lower(ext.value) in fileExtensions.value)
    {
      if fileExtensions.None? || |fileExtensions.value| == 0 then true
      else if ext.None? || ext.value == "" then indexEmptyExtension
      else BinarySearch(fileExtensions.value, Lower(ext.value), 0, |fileExtensions.value|) >= 0
    }
  }

  // ------------------------------------------------------------ list properties

  /** An extension whose lowercase form is an entry of the list is indexable, in any case. */
  lemma ListedExtensionIsIndexable(w: WorkspaceIndexer, list: string, ext: string)
    requires w.Valid() && ParsedFrom(w.fileExtensions, Some(list))
    requires ExtensionParts(Some(list)).Some? && ext != ""
    requires Lower(ext) in ExtensionParts(Some(list)).value
    ensures w.IsIndexableExtension(Some(ext))
  {
    assert Lower(ext) in multiset(w.fileExtensions.value);
  }

  /** With a list, an extension whose lowercase form is no entry of it is not indexable. */
  lemma UnlistedExtensionIsNotIndexable(w: WorkspaceIndexer, list: string, ext: string)
    requires w.Valid() && ParsedFrom(w.fileExtensions, Some(list))
    requires ExtensionParts(Some(list)).Some? && ext != ""
    requires Lower(ext) !in ExtensionParts(Some(list)).value
    ensures !w.IsIndexableExtension(Some(ext))
  {
    AbsentIsNotIndexable(w, ExtensionParts(Some(list)).value, ext);
  }

  lemma AbsentIsNotIndexable(w: WorkspaceIndexer, parts: seq<string>, ext: string)
    requires w.Valid() && w.fileExtensions.Some? && multiset(w.fileExtensions.value) == multiset(parts)
    requires |parts| > 0 && ext != ""
    requires Lower(ext) !in parts
    ensures !w.IsIndexableExtension(Some(ext))
  {
    var fe := w.fileExtensions.value;
    var key := Lower(ext);
    assert parts[0] in multiset(fe);
    assert key !in multiset(parts);
    assert key !in fe;
  }

  /** Lowercasing keeps a first character other than "*" and "." and untrimmable ends. */
  lemma LowerKeepsEnds(e: string)
    requires e != [] && e[0] != '*' && e[0] != '.'
    requires !IsTrimmable(e[0]) && !IsTrimmable(e[|e| - 1])
    ensures |Lower(e)| == |e|
    ensures Lower(e)[0] != '*' && Lower(e)[0] != '.'
    ensures !IsTrimmable(Lower(e)[0]) && !IsTrimmable(Lower(e)[|e| - 1])
  {
  }

  /** Lowercasing a string with a punctuation prefix lowercases the rest. */
  lemma LowerAfterPrefix(pre: string, e: string)
    requires forall i :: 0 <= i < |pre| ==> pre[i] == '*' || pre[i] == '.'
    ensures Lower(pre + e) == pre + Lower(e)
  {
  }

  /** "ext" names the lowercase extension. */
  lemma NormalizeBare(e: string)
    requires e != [] && e[0] != '*' && e[0] != '.'
    requires !IsTrimmable(e[0]) && !IsTrimmable(e[|e| - 1])
    ensures NormalizeExtension(e) == Lower(e)
  {
    LowerKeepsEnds(e);
    TrimUntrimmable(Lower(e));
  }

  lemma ConsTail<T>(x: T, s: seq<T>)
    ensures ([x] + s)[0] == x && ([x] + s)[1..] == s
  {
  }

  /** A lowercase form that trim leaves alone is what the two strip steps start from. */
  lemma NormalizeFromLowered(entry: string, lowered: string)
    requires Lower(entry) == lowered && Trim(lowered) == lowered
    ensures NormalizeExtension(entry) == StripLeading(StripLeading(lowered, '*'), '.')
  {
  }

  /** A punctuation prefix before an untrimmable end is left alone by trim. */
  lemma TrimAfterPrefix(pre: string, l: string)
    requires pre != [] && !IsTrimmable(pre[0])
    requires l != [] && !IsTrimmable(l[|l| - 1])
    ensures Trim(pre + l) == pre + l
  {
    var x := pre + l;
    assert x[0] == pre[0] && x[|x| - 1] == l[|l| - 1];
    TrimUntrimmable(x);
  }

  /** ".ext" names the lowercase extension. */
  lemma NormalizeDotted(e: string)
    requires e != [] && e[0] != '*' && e[0] != '.'
    requires !IsTrimmable(e[0]) && !IsTrimmable(e[|e| - 1])
    ensures NormalizeExtension("." + e) == Lower(e)
  {
    var l := Lower(e);
    LowerKeepsEnds(e);
    LowerAfterPrefix(".", e);
    TrimAfterPrefix(".", l);
    NormalizeFromLowered("." + e, "." + l);
    ConsTail('.', l);
  }

  /** "*.ext" names the lowercase extension. */
  lemma NormalizeStarDotted(e: string)
    requires e != [] && e[0] != '*' && e[0] != '.'
    requires !IsTrimmable(e[0]) && !IsTrimmable(e[|e| - 1])
    ensures NormalizeExtension("*." + e) == Lower(e)
  {
    var l := Lower(e);
    LowerKeepsEnds(e);
    LowerAfterPrefix("*.", e);
    TrimAfterPrefix("*.", l);
    NormalizeFromLowered("*." + e, "*." + l);
    StripStarDot(l);
  }

  lemma StripStarDot(l: string)
    ensures StripLeading(StripLeading("*." + l, '*'), '.') == l
  {
    var dl := ['.'] + l;
    ConsTail('.', l);
    ConsTail('*', dl);
    assert "*." + l == ['*'] + dl;
  }

  /** A non-empty list made only of separators (no spaces, no names) yields no list, so every extension is indexable. */
  lemma SeparatorsOnlyMeansNoList(list: string)
    requires list != ""
    requires forall i :: 0 <= i < |list| ==> IsListSeparator(list[i])
    ensures ExtensionParts(Some(list)) == None
  {
    forall j ensures !OccursAt(list, " ", j) {
      if 0 <= j && j + 1 <= |list| {
        assert list[j..j + 1][0] == list[j];
      }
    }
    ReplaceAllAbsent(list, " ", "");
    OnlySeparatorsSplitToNothing(list, IsListSeparator);
  }
}
