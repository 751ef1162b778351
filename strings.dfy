/**
 * The few java.lang.String operations InstaSearch relies on, stated over
 * `seq<char>`: case mapping (ASCII letters only), prefix and suffix tests,
 * `indexOf`, `split` on a one-character class, literal `replaceAll`, `trim`,
 * `compareTo` ordering and decimal conversion of integers.
 */
module Strings {

  datatype Option<T> = None | Some(value: T)

  predicate IsUpperLetter(c: char) { 'A' <= c <= 'Z' }
  predicate IsLowerLetter(c: char) { 'a' <= c <= 'z' }
  predicate IsDigit(c: char) { '0' <= c <= '9' }

  function LowerChar(c: char): char
  {
    if IsUpperLetter(c) then (c as int + 32) as char else c
  }

  function UpperChar(c: char): char
  {
    if IsLowerLetter(c) then (c as int - 32) as char else c
  }

  /** String.toLowerCase, letter by letter. */
  function Lower(s: string): (r: string)
    ensures |r| == |s|
    ensures forall i :: 0 <= i < |s| ==> r[i] == LowerChar(s[i])
    ensures forall i :: 0 <= i < |s| ==> !IsUpperLetter(r[i])
  {
    seq(|s|, i requires 0 <= i < |s| => LowerChar(s[i]))
  }

  /** String.toUpperCase, letter by letter. */
  function Upper(s: string): (r: string)
    ensures |r| == |s|
    ensures forall i :: 0 <= i < |s| ==> r[i] == UpperChar(s[i])
    ensures forall i :: 0 <= i < |s| ==> !IsLowerLetter(r[i])
  {
    seq(|s|, i requires 0 <= i < |s| => UpperChar(s[i]))
  }

  /** Upper-casing undoes lower-casing on a word of capitals. */
  lemma UpperOfLower(s: string)
    requires forall i :: 0 <= i < |s| ==> IsUpperLetter(s[i])
    ensures Upper(Lower(s)) == s
  {
    var r := Upper(Lower(s));
    assert |r| == |s|;
    forall i | 0 <= i < |s| ensures r[i] == s[i] {
      assert Lower(s)[i] == LowerChar(s[i]);
    }
  }

  lemma LowerIdempotent(s: string)
    ensures Lower(Lower(s)) == Lower(s)
  {
  }

  predicate StartsWith(s: string, prefix: string)
  {
    |prefix| <= |s| && s[..|prefix|] == prefix
  }

  predicate EndsWith(s: string, suffix: string)
  {
    |suffix| <= |s| && s[|s| - |suffix|..] == suffix
  }

  /** `sub` occurs in `s` starting at index `j`. */
  predicate OccursAt(s: string, sub: string, j: int)
  {
    0 <= j && j + |sub| <= |s| && s[j..j + |sub|] == sub
  }

  /** String.indexOf(sub, from): the first occurrence at or after `from`, or -1. */
  function IndexFrom(s: string, sub: string, from: nat): (r: int)
    ensures r == -1 || (from <= r && OccursAt(s, sub, r))
    ensures forall j :: from <= j && (r == -1 || j < r) ==> !OccursAt(s, sub, j)
    decreases |s| - from
  {
    if from + |sub| > |s| then -1
    else if s[from..from + |sub|] == sub then from
    else IndexFrom(s, sub, from + 1)
  }

  /** String.indexOf(sub): the first occurrence, or -1 when there is none. */
  function IndexOf(s: string, sub: string): (r: int)
    ensures r == -1 || OccursAt(s, sub, r)
    ensures forall j :: 0 <= j && (r == -1 || j < r) ==> !OccursAt(s, sub, j)
  {
    IndexFrom(s, sub, 0)
  }

  /**
   * The pieces between single separator characters, keeping every empty
   * piece: what a regex split with no limit produces before Java drops the
   * trailing empty strings.
   */
  function Pieces(s: string, isSep: char -> bool): (r: seq<string>)
    ensures |r| >= 1
    ensures forall k, i :: 0 <= k < |r| && 0 <= i < |r[k]| ==> !isSep(r[k][i])
    decreases |s|
  {
    if s == [] then [""]
    else
      var rest := Pieces(s[1..], isSep);
      if isSep(s[0]) then [""] + rest
      else [[s[0]] + rest[0]] + rest[1..]
  }

  /** Drops the empty strings at the end of a list. */
  function DropTrailingEmpty(parts: seq<string>): (r: seq<string>)
    ensures |r| <= |parts| && r == parts[..|r|]
    ensures r == [] || r[|r| - 1] != ""
    ensures forall k :: |r| <= k < |parts| ==> parts[k] == ""
  {
    if parts == [] then []
    else if parts[|parts| - 1] == "" then DropTrailingEmpty(parts[..|parts| - 1])
    else parts
  }

  /**
   * String.split(regex) for a regex that matches exactly one character of a
   * class: an input without a separator gives itself (so "" gives [""]);
   * otherwise trailing empty pieces are dropped and a leading one is kept.
   */
  function Split(s: string, isSep: char -> bool): seq<string>
  {
    if s == [] then [""] else DropTrailingEmpty(Pieces(s, isSep))
  }

  /** A non-empty string of separators only splits into no part at all. */
  lemma {:induction false} OnlySeparatorsSplitToNothing(s: string, isSep: char -> bool)
    requires s != []
    requires forall i :: 0 <= i < |s| ==> isSep(s[i])
    ensures forall k :: 0 <= k < |Pieces(s, isSep)| ==> Pieces(s, isSep)[k] == ""
    ensures Split(s, isSep) == []
    decreases |s|
  {
    var ps := Pieces(s, isSep);
    if |s| == 1 {
      assert Pieces(s[1..], isSep) == [""];
      assert ps == ["", ""];
    } else {
      OnlySeparatorsSplitToNothing(s[1..], isSep);
    }
    assert forall k :: 0 <= k < |ps| ==> ps[k] == "";
    EmptyPiecesDropToNothing(ps);
  }

  lemma {:induction false} EmptyPiecesDropToNothing(parts: seq<string>)
    requires forall k :: 0 <= k < |parts| ==> parts[k] == ""
    ensures DropTrailingEmpty(parts) == []
    decreases |parts|
  {
    if parts != [] {
      EmptyPiecesDropToNothing(parts[..|parts| - 1]);
    }
  }

  /** The separator characters that occur in `s`. */
  predicate HasSeparator(s: string, isSep: char -> bool)
  {
    exists i :: 0 <= i < |s| && isSep(s[i])
  }

  lemma {:induction false} PiecesWithoutSeparator(s: string, isSep: char -> bool)
    requires !HasSeparator(s, isSep)
    ensures Pieces(s, isSep) == [s]
    decreases |s|
  {
    if s != [] {
      assert !isSep(s[0]);
      assert !HasSeparator(s[1..], isSep) by {
        forall i | 0 <= i < |s[1..]| ensures !isSep(s[1..][i]) {
          assert s[1..][i] == s[i + 1];
        }
      }
      PiecesWithoutSeparator(s[1..], isSep);
      assert [s[0]] + s[1..] == s;
    }
  }

  /** A separator-free stretch followed by a separator is one whole piece. */
  lemma {:induction false} PiecesAfterWord(a: string, c: char, b: string, isSep: char -> bool)
    requires !HasSeparator(a, isSep) && isSep(c)
    ensures Pieces(a + [c] + b, isSep) == [a] + Pieces(b, isSep)
    decreases |a|
  {
    var s := a + [c] + b;
    if a == [] {
      assert s == [c] + b && s[1..] == b;
    } else {
      assert s[0] == a[0] && !isSep(a[0]);
      assert s[1..] == a[1..] + [c] + b;
      assert !HasSeparator(a[1..], isSep) by {
        forall i | 0 <= i < |a[1..]| ensures !isSep(a[1..][i]) {
          assert a[1..][i] == a[i + 1];
        }
      }
      PiecesAfterWord(a[1..], c, b, isSep);
      assert [a[0]] + a[1..] == a;
    }
  }

  /** A string without separators splits into exactly itself. */
  lemma SplitWithoutSeparator(s: string, isSep: char -> bool)
    requires !HasSeparator(s, isSep)
    ensures Split(s, isSep) == [s]
  {
    if s != [] {
      PiecesWithoutSeparator(s, isSep);
    }
  }

  /** Every piece lies somewhere inside the string it was cut from. */
  lemma {:induction false} PiecesOccur(s: string, isSep: char -> bool, k: nat)
    requires k < |Pieces(s, isSep)|
    ensures exists j :: OccursAt(s, Pieces(s, isSep)[k], j)
    decreases |s|
  {
    var r := Pieces(s, isSep);
    if s == [] {
      assert OccursAt(s, r[k], 0);
    } else {
      var rest := Pieces(s[1..], isSep);
      if isSep(s[0]) && k == 0 {
        assert OccursAt(s, r[k], 0);
      } else if !isSep(s[0]) && k == 0 {
        PiecesStartAtFront(s, isSep);
      } else {
        var k' := if isSep(s[0]) then k - 1 else k;
        assert r[k] == rest[k'];
        PiecesOccur(s[1..], isSep, k');
        var j :| OccursAt(s[1..], rest[k'], j);
        OccursAfterFirst(s, rest[k'], j);
      }
    }
  }

  /** An occurrence in the tail is an occurrence one place further in the string. */
  lemma OccursAfterFirst(s: string, sub: string, j: int)
    requires s != [] && OccursAt(s[1..], sub, j)
    ensures OccursAt(s, sub, j + 1)
  {
    assert s[j + 1..j + 1 + |sub|] == s[1..][j..j + |sub|];
  }

  /** The first piece is a prefix of the string. */
  lemma {:induction false} PiecesStartAtFront(s: string, isSep: char -> bool)
    ensures OccursAt(s, Pieces(s, isSep)[0], 0)
    decreases |s|
  {
    if s != [] && !isSep(s[0]) {
      var rest := Pieces(s[1..], isSep);
      PiecesStartAtFront(s[1..], isSep);
      assert s[..1 + |rest[0]|] == [s[0]] + s[1..][..|rest[0]|];
    }
  }

  /** Every part of a split lies inside the split string. */
  lemma SplitPartsOccur(s: string, isSep: char -> bool, k: nat)
    requires k < |Split(s, isSep)|
    ensures exists j :: OccursAt(s, Split(s, isSep)[k], j)
  {
    if s == [] {
      assert OccursAt(s, Split(s, isSep)[k], 0);
    } else {
      PiecesOccur(s, isSep, k);
    }
  }

  /** No part of a split contains a separator. */
  lemma SplitPartsHaveNoSeparator(s: string, isSep: char -> bool)
    ensures forall k :: 0 <= k < |Split(s, isSep)| ==> !HasSeparator(Split(s, isSep)[k], isSep)
  {
  }

  /** String.replaceAll with a pattern and a replacement that are plain text. */
  function ReplaceAll(s: string, pattern: string, replacement: string): string
    requires |pattern| > 0
    decreases |s|
  {
    if |s| < |pattern| then s
    else if s[..|pattern|] == pattern then replacement + ReplaceAll(s[|pattern|..], pattern, replacement)
    else [s[0]] + ReplaceAll(s[1..], pattern, replacement)
  }

  /** A replacement leaves a string without the pattern untouched. */
  lemma {:induction false} ReplaceAllAbsent(s: string, pattern: string, replacement: string)
    requires |pattern| > 0
    requires forall j :: !OccursAt(s, pattern, j)
    ensures ReplaceAll(s, pattern, replacement) == s
    decreases |s|
  {
    if |s| >= |pattern| {
      assert !OccursAt(s, pattern, 0);
      forall j ensures !OccursAt(s[1..], pattern, j) {
        if 0 <= j && j + |pattern| <= |s| - 1 {
          assert s[1..][j..j + |pattern|] == s[j + 1..j + 1 + |pattern|];
          assert !OccursAt(s, pattern, j + 1);
        }
      }
      ReplaceAllAbsent(s[1..], pattern, replacement);
      assert [s[0]] + s[1..] == s;
    }
  }

  /** The characters a regular-expression `.` does not match. */
  predicate IsLineTerminator(c: char)
  {
    c == '\n' || c == '\r' || c == '\U{0085}' || c == '\U{2028}' || c == '\U{2029}'
  }

  /** `replaceAll("[^…]+", "")`: the characters of `s` that `keep` accepts, in order. */
  function Filter(s: string, keep: char -> bool): (r: string)
    ensures |r| <= |s|
    ensures forall i :: 0 <= i < |r| ==> keep(r[i])
  {
    if s == [] then [] else (if keep(s[0]) then [s[0]] else []) + Filter(s[1..], keep)
  }

  lemma {:induction false} FilterAppend(a: string, b: string, keep: char -> bool)
    ensures Filter(a + b, keep) == Filter(a, keep) + Filter(b, keep)
    decreases |a|
  {
    if a == [] {
      assert a + b == b;
    } else {
      assert (a + b)[1..] == a[1..] + b;
      FilterAppend(a[1..], b, keep);
    }
  }

  /** Filtering keeps a string whose characters are all accepted and empties one with none accepted. */
  lemma {:induction false} FilterAllOrNone(s: string, keep: char -> bool)
    ensures (forall i :: 0 <= i < |s| ==> keep(s[i])) ==> Filter(s, keep) == s
    ensures (forall i :: 0 <= i < |s| ==> !keep(s[i])) ==> Filter(s, keep) == []
    decreases |s|
  {
    if s != [] {
      FilterAllOrNone(s[1..], keep);
      assert s == [s[0]] + s[1..];
    }
  }

  predicate IsTrimmable(c: char) { c <= ' ' }

  function TrimStart(s: string): (r: string)
    ensures |r| <= |s| && r == s[|s| - |r|..]
    ensures r == [] || !IsTrimmable(r[0])
  {
    if s != [] && IsTrimmable(s[0]) then TrimStart(s[1..]) else s
  }

  function TrimEnd(s: string): (r: string)
    ensures |r| <= |s| && r == s[..|r|]
    ensures r == [] || !IsTrimmable(r[|r| - 1])
  {
    if s != [] && IsTrimmable(s[|s| - 1]) then TrimEnd(s[..|s| - 1]) else s
  }

  /** String.trim: drops the characters up to U+0020 at both ends. */
  function Trim(s: string): string
  {
    TrimEnd(TrimStart(s))
  }

  /** A string that neither starts nor ends with a trimmable character is its own trim. */
  lemma TrimUntrimmable(s: string)
    requires s != [] ==> !IsTrimmable(s[0]) && !IsTrimmable(s[|s| - 1])
    ensures Trim(s) == s
  {
  }

  /** String.compareTo(b) <= 0: lexicographic order on characters. */
  predicate LessOrEqual(a: string, b: string)
    decreases |a|
  {
    a == [] || (b != [] && (a[0] < b[0] || (a[0] == b[0] && LessOrEqual(a[1..], b[1..]))))
  }

  lemma {:induction false} LessOrEqualTotal(a: string, b: string)
    ensures LessOrEqual(a, b) || LessOrEqual(b, a)
    decreases |a|
  {
    if a != [] && b != [] && a[0] == b[0] {
      LessOrEqualTotal(a[1..], b[1..]);
    }
  }

  lemma {:induction false} LessOrEqualTransitive(a: string, b: string, c: string)
    requires LessOrEqual(a, b) && LessOrEqual(b, c)
    ensures LessOrEqual(a, c)
    decreases |a|
  {
    if a != [] && b[0] == a[0] && c[0] == b[0] {
      LessOrEqualTransitive(a[1..], b[1..], c[1..]);
    }
  }

  lemma {:induction false} LessOrEqualAntisymmetric(a: string, b: string)
    requires LessOrEqual(a, b) && LessOrEqual(b, a)
    ensures a == b
    decreases |a|
  {
    if a != [] {
      LessOrEqualAntisymmetric(a[1..], b[1..]);
      assert a == [a[0]] + a[1..] && b == [b[0]] + b[1..];
    }
  }

  function DigitChar(d: nat): char
    requires d < 10
  {
    ('0' as int + d) as char
  }

  /** Long.toString for a non-negative value. */
  function NatToString(n: nat): (r: string)
    ensures |r| >= 1
    ensures forall i :: 0 <= i < |r| ==> IsDigit(r[i])
    decreases n
  {
    if n < 10 then [DigitChar(n)] else NatToString(n / 10) + [DigitChar(n % 10)]
  }

  /** Long.toString: an optional minus sign followed by the decimal digits. */
  function IntToString(i: int): string
  {
    if i < 0 then "-" + NatToString(-i) else NatToString(i)
  }

  /** The value of a string of decimal digits, read left to right. */
  function DigitsValue(s: string): nat
    requires forall i :: 0 <= i < |s| ==> IsDigit(s[i])
    decreases |s|
  {
    if s == [] then 0
    else
      assert IsDigit(s[|s| - 1]);
      10 * DigitsValue(s[..|s| - 1]) + (s[|s| - 1] as int - '0' as int)
  }

  /** Reading back a printed natural number gives the number. */
  lemma {:induction false} NatToStringRoundTrip(n: nat)
    ensures DigitsValue(NatToString(n)) == n
    decreases n
  {
    if n >= 10 {
      var s := NatToString(n);
      NatToStringRoundTrip(n / 10);
      assert s[..|s| - 1] == NatToString(n / 10);
    }
  }

  /** The strings that are not empty, in order. */
  function NonEmpty(vals: seq<string>): (r: seq<string>)
    ensures forall k :: 0 <= k < |r| ==> r[k] != ""
    ensures forall v :: v in r <==> v in vals && v != ""
  {
    if vals == [] then []
    else (if vals[0] == "" then [] else [vals[0]]) + NonEmpty(vals[1..])
  }

  lemma {:induction false} NonEmptyAppend(vals: seq<string>, v: string)
    ensures NonEmpty(vals + [v]) == NonEmpty(vals) + (if v == "" then [] else [v])
    decreases |vals|
  {
    if vals == [] {
      assert [v][1..] == [];
    } else {
      assert (vals + [v])[1..] == vals[1..] + [v];
      NonEmptyAppend(vals[1..], v);
    }
  }
}
