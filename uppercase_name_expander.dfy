/**
 * UppercaseNameExpander: a NAME term written in camel humps ("ABC",
 * "AbsBC") is also searched as a wildcard with a star after every hump, so
 * that "ABC" finds "AbstractBaseClass".
 */
module UppercaseNames {
  import opened Strings
  import opened Fields
  import opened Queries

  /** A character that may follow the capital letter of a hump: `[a-z0-9_]`. */
  predicate IsHumpTail(c: char)
  {
    IsLowerLetter(c) || IsDigit(c) || c == '_'
  }

  /** The end of the run of hump-tail characters that starts at `i`. */
  function HumpEnd(s: string, i: nat): (r: nat)
    requires i <= |s|
    ensures i <= r <= |s|
    ensures forall k :: i <= k < r ==> IsHumpTail(s[k])
    ensures r == |s| || !IsHumpTail(s[r])
    decreases |s| - i
  {
    if i == |s| || !IsHumpTail(s[i]) then i else HumpEnd(s, i + 1)
  }

  /**
   * `s.matches("[A-Z][a-z0-9_]*[A-Z].*")`: a capital, its hump tail, a second
   * capital, then anything up to the end without a line terminator. The
   * hump tail cannot hold a capital, so the second capital can only sit
   * where the tail ends.
   */
  predicate HasSeveralHumps(s: string)
  {
    |s| >= 2 && IsUpperLetter(s[0])
    && var k := HumpEnd(s, 1);
       k < |s| && IsUpperLetter(s[k])
       && forall j :: k < j < |s| ==> !IsLineTerminator(s[j])
  }

  /** `s.replaceAll("([A-Z][a-z0-9_]*)", "$1*")`: a star after every hump. */
  function StarHumps(s: string): string
    decreases |s|
  {
    if s == [] then []
    else if IsUpperLetter(s[0]) then
      var e := HumpEnd(s, 1);
      s[..e] + "*" + StarHumps(s[e..])
    else [s[0]] + StarHumps(s[1..])
  }

  /** visit(TermQuery, field). */
  function Visit(q: Query, field: Option<Field>): Query
    requires q.TermQuery?
  {
    if field != Some(NAME) then q
    else if HasSeveralHumps(q.term.text) then
      AnyOf([q, WildcardQuery(CreateTerm(NAME, StarHumps(q.term.text)), q.boost / 2.0)])
    else q
  }

  /** The characters of `s` other than '*'. */
  function Unstar(s: string): string
  {
    if s == [] then [] else (if s[0] == '*' then [] else [s[0]]) + Unstar(s[1..])
  }

  function CountStars(s: string): nat
  {
    if s == [] then 0 else (if s[0] == '*' then 1 else 0) + CountStars(s[1..])
  }

  function CountCapitals(s: string): nat
  {
    if s == [] then 0 else (if IsUpperLetter(s[0]) then 1 else 0) + CountCapitals(s[1..])
  }

  lemma {:induction false} UnstarConcat(a: string, b: string)
    ensures Unstar(a + b) == Unstar(a) + Unstar(b)
    ensures CountStars(a + b) == CountStars(a) + CountStars(b)
    ensures CountCapitals(a + b) == CountCapitals(a) + CountCapitals(b)
    decreases |a|
  {
    if a != [] {
      var ab := a + b;
      assert ab[0] == a[0] && ab[1..] == a[1..] + b;
      UnstarConcat(a[1..], b);
      calc {
        Unstar(ab);
        (if a[0] == '*' then [] else [a[0]]) + Unstar(a[1..] + b);
        (if a[0] == '*' then [] else [a[0]]) + (Unstar(a[1..]) + Unstar(b));
        Unstar(a) + Unstar(b);
      }
    } else {
      assert a + b == b;
    }
  }

  /** A hump holds one capital and no star. */
  lemma {:induction false} HumpCounts(s: string, e: nat)
    requires 1 <= e <= |s| && IsUpperLetter(s[0])
    requires forall k :: 1 <= k < e ==> IsHumpTail(s[k])
    ensures Unstar(s[..e]) == s[..e]
    ensures CountStars(s[..e]) == 0 && CountCapitals(s[..e]) == 1
  {
    var h := s[..e];
    TailCounts(h[1..]);
    assert h == [s[0]] + h[1..];
  }

  lemma {:induction false} TailCounts(t: string)
    requires forall k :: 0 <= k < |t| ==> IsHumpTail(t[k])
    ensures Unstar(t) == t && CountStars(t) == 0 && CountCapitals(t) == 0
    decreases |t|
  {
    if t != [] {
      TailCounts(t[1..]);
      assert t == [t[0]] + t[1..];
    }
  }

  /** The step of StarHumps that copies one hump and puts a star after it. */
  lemma HumpStep(s: string, e: nat, rest: string)
    requires 1 <= e <= |s| && IsUpperLetter(s[0])
    requires forall k :: 1 <= k < e ==> IsHumpTail(s[k])
    requires Unstar(rest) == Unstar(s[e..])
    requires CountStars(rest) == CountStars(s[e..]) + CountCapitals(s[e..])
    ensures Unstar(s[..e] + "*" + rest) == Unstar(s)
    ensures CountStars(s[..e] + "*" + rest) == CountStars(s) + CountCapitals(s)
  {
    var h := s[..e];
    HumpCounts(s, e);
    assert Unstar("*") == [] && CountStars("*") == 1 && CountCapitals("*") == 0;
    UnstarConcat(h, "*");
    UnstarConcat(h + "*", rest);
    UnstarConcat(h, s[e..]);
    assert h + s[e..] == s;
  }

  /** Removing the stars from the pattern gives back the text's own characters. */
  lemma {:induction false} StarHumpsOnlyAddsStars(s: string)
    ensures Unstar(StarHumps(s)) == Unstar(s)
    ensures CountStars(StarHumps(s)) == CountStars(s) + CountCapitals(s)
    decreases |s|
  {
    if s != [] {
      if IsUpperLetter(s[0]) {
        var e := HumpEnd(s, 1);
        StarHumpsOnlyAddsStars(s[e..]);
        HumpStep(s, e, StarHumps(s[e..]));
      } else {
        StarHumpsOnlyAddsStars(s[1..]);
        UnstarConcat([s[0]], StarHumps(s[1..]));
        UnstarConcat([s[0]], s[1..]);
        assert [s[0]] + s[1..] == s;
      }
    }
  }

  /** Position `i` lies in a hump: a capital, or a hump-tail character right after one that does. */
  predicate InHump(s: string, i: nat)
    requires i < |s|
    decreases i
  {
    IsUpperLetter(s[i]) || (i > 0 && IsHumpTail(s[i]) && InHump(s, i - 1))
  }

  /** Position `i` is the last character of a hump: no hump-tail character follows it. */
  predicate EndsHump(s: string, i: nat)
    requires i < |s|
  {
    InHump(s, i) && (i + 1 == |s| || !IsHumpTail(s[i + 1]))
  }

  /**
   * The reference for the pattern, position by position: the first `n`
   * characters of `s`, each followed by a star exactly when it ends a hump.
   */
  function StarredPrefix(s: string, n: nat): string
    requires n <= |s|
  {
    if n == 0 then [] else StarredPrefix(s, n - 1) + [s[n - 1]] + (if EndsHump(s, n - 1) then "*" else "")
  }

  /** Where no hump runs across position `k`, humps from `k` on are those of the suffix. */
  lemma {:induction false} InHumpSuffix(s: string, k: nat, i: nat)
    requires 0 < k <= i < |s|
    requires !InHump(s, k - 1) || !IsHumpTail(s[k])
    ensures InHump(s, i) == InHump(s[k..], i - k)
    decreases i
  {
    if i > k {
      InHumpSuffix(s, k, i - 1);
    }
  }

  /** Where no hump runs across position `k`, the starred text splits there. */
  lemma {:induction false} StarredSplit(s: string, k: nat, n: nat)
    requires 0 < k <= |s| && n <= |s| - k
    requires k == |s| || !InHump(s, k - 1) || !IsHumpTail(s[k])
    ensures StarredPrefix(s, k + n) == StarredPrefix(s, k) + StarredPrefix(s[k..], n)
  {
    if n > 0 {
      StarredSplit(s, k, n - 1);
      InHumpSuffix(s, k, k + n - 1);
      var t := s[k..];
      assert t[n - 1] == s[k + n - 1];
      assert k + n < |s| ==> t[n] == s[k + n];
      assert EndsHump(s, k + n - 1) == EndsHump(t, n - 1);
    }
  }

  /** Every character of the first hump lies in it. */
  lemma {:induction false} HumpInside(s: string, i: nat)
    requires 1 <= |s| && IsUpperLetter(s[0]) && i < HumpEnd(s, 1)
    ensures InHump(s, i)
    decreases i
  {
    if i > 0 {
      HumpInside(s, i - 1);
    }
  }

  /** The first hump is copied with one star after its last character. */
  lemma {:induction false} FirstHumpStarred(s: string, n: nat)
    requires 1 <= |s| && IsUpperLetter(s[0]) && 1 <= n <= HumpEnd(s, 1)
    ensures StarredPrefix(s, n) == s[..n] + (if n == HumpEnd(s, 1) then "*" else "")
  {
    var e := HumpEnd(s, 1);
    HumpInside(s, n - 1);
    assert EndsHump(s, n - 1) == (n == e);
    if n > 1 {
      FirstHumpStarred(s, n - 1);
    }
    assert s[..n] == s[..n - 1] + [s[n - 1]];
  }

  /**
   * StarHumps puts a star after exactly the characters that end a hump,
   * and nowhere else: after a capital or a hump tail that no hump-tail
   * character follows.
   */
  lemma {:induction false} StarHumpsMarksHumpEnds(s: string)
    ensures StarHumps(s) == StarredPrefix(s, |s|)
    decreases |s|
  {
    if s != [] {
      if IsUpperLetter(s[0]) {
        var e := HumpEnd(s, 1);
        FirstHumpStarred(s, e);
        StarHumpsMarksHumpEnds(s[e..]);
        if e < |s| {
          StarredSplit(s, e, |s| - e);
        } else {
          assert s[e..] == [] && s[..e] == s;
        }
      } else {
        StarHumpsMarksHumpEnds(s[1..]);
        StarredSplit(s, 1, |s| - 1);
        assert StarredPrefix(s, 1) == [s[0]];
      }
    }
  }

  /** "ABC" becomes "A*B*C*"; "AbsBC" becomes "Abs*B*C*". */
  lemma StarHumpsExamples()
    ensures StarHumps("ABC") == "A*B*C*"
    ensures StarHumps("AbsBC") == "Abs*B*C*"
  {
    assert HumpEnd("C", 1) == 1;
    assert StarHumps("C") == "C*";
    assert HumpEnd("BC", 1) == 1;
    assert StarHumps("BC") == "B*C*";
    assert HumpEnd("ABC", 1) == 1;
    assert "ABC"[1..] == "BC";
    assert HumpEnd("AbsBC", 1) == 3;
    assert "AbsBC"[3..] == "BC";
  }

  /** "Foo" has a single hump; "ABC" and "FooBar" have several. */
  lemma HumpExamples()
    ensures !HasSeveralHumps("Foo")
    ensures HasSeveralHumps("ABC")
    ensures HasSeveralHumps("FooBar")
  {
    assert HumpEnd("Foo", 1) == 3;
    assert HumpEnd("ABC", 1) == 1;
    assert HumpEnd("FooBar", 1) == 3;
  }

  /** Every term other than a NAME term with several humps is returned unchanged. */
  lemma VisitKeepsOtherTerms(q: Query, field: Option<Field>)
    requires q.TermQuery?
    requires field != Some(NAME) || !HasSeveralHumps(q.term.text)
    ensures Visit(q, field) == q
  {
  }

  /** The OR of a query and a NAME wildcard at half its boost. */
  lemma OrWithNameWildcard(q: Query, pattern: string)
    ensures var r := AnyOf([q, WildcardQuery(CreateTerm(NAME, pattern), q.boost / 2.0)]);
      r.BooleanQuery? && |r.clauses| == 2
      && r.clauses[0] == Clause(q, Should) && r.clauses[1].occur == Should
      && var w := r.clauses[1].query;
         w.WildcardQuery? && w.pattern.field == "name" && w.boost == q.boost / 2.0 && w.pattern.text == pattern
  {
    var w := WildcardQuery(CreateTerm(NAME, pattern), q.boost / 2.0);
    var cs := ShouldClauses([q, w]);
    assert cs[0] == Clause(q, Should) && cs[1] == Clause(w, Should);
    assert AnyOf([q, w]) == BooleanQuery(cs, DefaultBoost, 0);
  }

  /**
   * A NAME term with several humps becomes the OR of itself and a NAME
   * wildcard at half its boost, whose pattern is the text with a star after
   * the last character of every hump: one star per capital letter.
   */
  lemma VisitExpandsHumpedNames(q: Query)
    requires q.TermQuery? && HasSeveralHumps(q.term.text)
    ensures var r := Visit(q, Some(NAME));
      r.BooleanQuery? && |r.clauses| == 2
      && r.clauses[0] == Clause(q, Should) && r.clauses[1].occur == Should
      && var w := r.clauses[1].query;
         w.WildcardQuery? && w.pattern.field == "name" && w.boost == q.boost / 2.0
         && w.pattern.text == StarredPrefix(q.term.text, |q.term.text|)
         && Unstar(w.pattern.text) == Unstar(q.term.text)
         && CountStars(w.pattern.text) == CountStars(q.term.text) + CountCapitals(q.term.text)
  {
    var text := q.term.text;
    StarHumpsOnlyAddsStars(text);
    StarHumpsMarksHumpEnds(text);
    var pattern := StarHumps(text);
    OrWithNameWildcard(q, pattern);
    assert Visit(q, Some(NAME)) == AnyOf([q, WildcardQuery(CreateTerm(NAME, pattern), q.boost / 2.0)]);
  }
}
