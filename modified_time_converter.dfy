/**
 * ModifiedTimeConverter: a MODIFIED term naming a duration ("today",
 * "yesterday", "3 days", "weeks", ...) becomes a range query over the
 * modification time in milliseconds. The clock is a parameter: the current
 * time and the starts of today and of yesterday in the local calendar.
 */
module ModifiedTime {
  import opened Strings
  import opened Fields
  import opened Queries

  datatype Interval = TODAY | YESTERDAY | HOUR | DAY | WEEK | MONTH

  function IntervalName(i: Interval): string
  {
    match i
    case TODAY => "TODAY"
    case YESTERDAY => "YESTERDAY"
    case HOUR => "HOUR"
    case DAY => "DAY"
    case WEEK => "WEEK"
    case MONTH => "MONTH"
  }

  const HourMillis: int := 3600000
  const DayMillis: int := 24 * HourMillis

  /** The length of an interval in milliseconds; TODAY and YESTERDAY have none. */
  function Millis(i: Interval): int
  {
    match i
    case TODAY => 0
    case YESTERDAY => 0
    case HOUR => HourMillis
    case DAY => DayMillis
    case WEEK => 7 * DayMillis
    case MONTH => 30 * DayMillis
  }

  /** getDurationNames: the interval names in lower case, then an example with a count. */
  const DurationNames: seq<string> := ["today", "yesterday", "hour", "day", "week", "month", "3 days"]

  /** getIntervalByName: `Interval.valueOf(name.toUpperCase())`, no interval when that throws. */
  function IntervalByName(name: string): (r: Option<Interval>)
    ensures r.Some? ==> IntervalName(r.value) == Upper(name)
    ensures r.None? <==> forall i: Interval :: IntervalName(i) != Upper(name)
  {
    var u := Upper(name);
    if u == "TODAY" then Some(TODAY)
    else if u == "YESTERDAY" then Some(YESTERDAY)
    else if u == "HOUR" then Some(HOUR)
    else if u == "DAY" then Some(DAY)
    else if u == "WEEK" then Some(WEEK)
    else if u == "MONTH" then Some(MONTH)
    else None
  }

  const IntMax: int := 0x7fff_ffff
  const LongMax: int := 0x7fff_ffff_ffff_ffff
  const LongMin: int := -0x8000_0000_0000_0000

  /** NumberUtils.toInt: the value of a digit string that fits in an int, else the default. */
  function ToInt(digits: string, default: int): int
    requires forall i :: 0 <= i < |digits| ==> IsDigit(digits[i])
  {
    if digits != [] && DigitsValue(digits) <= IntMax then DigitsValue(digits) else default
  }

  /** `text.matches("^[0-9]+.*$")`: a digit first, and no line terminator anywhere. */
  predicate StartsWithCount(text: string)
  {
    |text| >= 1 && IsDigit(text[0]) && forall j :: 0 <= j < |text| ==> !IsLineTerminator(text[j])
  }

  predicate IsDigitOrSpace(c: char) { IsDigit(c) || c == ' ' }
  predicate IsNeither(c: char) { !IsDigitOrSpace(c) }

  datatype Duration = Duration(multiplier: int, interval: Interval)

  /** The count a MODIFIED text starts with: its digits read as an int, 1 when absent or too large. */
  function CountOf(text: string): (r: int)
    ensures 0 <= r <= IntMax
  {
    if StartsWithCount(text) then ToInt(Filter(text, IsDigit), 1) else 1
  }

  /**
   * The interval name a MODIFIED text holds: without digits and spaces and
   * trimmed when it starts with a count, then without one trailing "s".
   */
  function NameOf(text: string): string
  {
    var name := if StartsWithCount(text) then Trim(Filter(text, IsNeither)) else text;
    if EndsWith(name, "s") then name[..|name| - 1] else name
  }

  /** The interval a MODIFIED text names, with its count. */
  function ParseDuration(text: string): Option<Duration>
  {
    match IntervalByName(NameOf(text))
    case None => None
    case Some(i) => Some(Duration(CountOf(text), i))
  }

  /** The wall clock at the time of the search. */
  datatype Clock = Clock(now: int, todayStart: int, yesterdayStart: int)

  /** A clock whose day starts are in order and not after the current time. */
  predicate ClockValid(c: Clock)
  {
    c.yesterdayStart <= c.todayStart <= c.now
  }

  /** The first and last millisecond (both included) of a duration. */
  function Range(d: Duration, c: Clock): (int, int)
  {
    match d.interval
    case TODAY => (c.todayStart, c.now)
    case YESTERDAY => (c.yesterdayStart, c.todayStart)
    case _ => (c.now - d.multiplier * Millis(d.interval), c.now)
  }

  /** visit(TermQuery, field). */
  function Visit(q: Query, field: Option<Field>, c: Clock): Query
    requires q.TermQuery?
  {
    if field != Some(MODIFIED) then q
    else
      match ParseDuration(q.term.text)
      case None => q
      case Some(d) =>
        var (start, end) := Range(d, c);
        NumericRangeQuery(Lower(Name(MODIFIED)), start, end, DefaultBoost)
  }

  lemma MulBound(a: int, b: int, maxA: int, maxB: int)
    requires 0 <= a <= maxA && 0 <= b <= maxB
    ensures 0 <= a * b <= maxA * maxB
  {
    assert a * b <= maxA * b;
    assert maxA * b <= maxA * maxB;
  }

  /**
   * A count of hours, days, weeks or months spans that many hours, days,
   * seven-day weeks or thirty-day months, in milliseconds, back to now.
   */
  lemma RangeWidths(d: Duration, c: Clock)
    ensures var (start, end) := Range(d, c);
      (d.interval == HOUR ==> end - start == d.multiplier * (60 * 60 * 1000))
      && (d.interval == DAY ==> end - start == d.multiplier * (24 * 60 * 60 * 1000))
      && (d.interval == WEEK ==> end - start == d.multiplier * (7 * 24 * 60 * 60 * 1000))
      && (d.interval == MONTH ==> end - start == d.multiplier * (30 * 24 * 60 * 60 * 1000))
      && (d.interval != YESTERDAY ==> end == c.now)
  {
  }

  /**
   * A MODIFIED term that names a duration becomes a range over the modified
   * field: from the start of today to now for today, from the start of
   * yesterday to the start of today for yesterday, and otherwise the count
   * times the interval length back from now; under a valid clock the range
   * is never empty. Anything else is left as it is.
   */
  lemma VisitRange(q: Query, field: Option<Field>, c: Clock)
    requires q.TermQuery?
    ensures field != Some(MODIFIED) || ParseDuration(q.term.text).None? ==> Visit(q, field, c) == q
    ensures field == Some(MODIFIED) && ParseDuration(q.term.text).Some? ==>
      var r := Visit(q, field, c);
      var d := ParseDuration(q.term.text).value;
      r.NumericRangeQuery? && r.field == ToString(MODIFIED)
      && r.lower == (if d.interval == TODAY then c.todayStart
                     else if d.interval == YESTERDAY then c.yesterdayStart
                     else c.now - d.multiplier * Millis(d.interval))
      && r.upper == (if d.interval == YESTERDAY then c.todayStart else c.now)
      && (ClockValid(c) ==> r.lower <= r.upper)
  {
    ToStringIsLowerName(MODIFIED);
    if field == Some(MODIFIED) && ParseDuration(q.term.text).Some? {
      var d := ParseDuration(q.term.text).value;
      MulBound(d.multiplier, Millis(d.interval), IntMax, 30 * DayMillis);
    }
  }

  /**
   * The range arithmetic cannot overflow a Java long: the count is at most
   * the largest int and the longest interval is thirty days.
   */
  lemma RangeFitsInLong(text: string, c: Clock)
    requires ParseDuration(text).Some?
    requires 0 <= c.yesterdayStart && ClockValid(c) && c.now <= LongMax
    ensures var (start, end) := Range(ParseDuration(text).value, c);
      LongMin <= start <= end <= LongMax
  {
    var d := ParseDuration(text).value;
    MulBound(d.multiplier, Millis(d.interval), IntMax, 30 * DayMillis);
  }

  /** How a duration is written with a count: "3 days", "12 hours". */
  function DurationText(d: Duration): string
    requires d.multiplier >= 0
  {
    NatToString(d.multiplier) + " " + Lower(IntervalName(d.interval)) + "s"
  }

  lemma LowerNameLetters(i: Interval)
    ensures var n := Lower(IntervalName(i));
      n != [] && forall k :: 0 <= k < |n| ==> IsLowerLetter(n[k])
  {
  }

  lemma IntervalByLowerName(i: Interval)
    ensures IntervalByName(Lower(IntervalName(i))) == Some(i)
  {
    var n := IntervalName(i);
    assert forall k :: 0 <= k < |n| ==> IsUpperLetter(n[k]);
    assert Upper(Lower(n)) == n;
  }

  /** The written form starts with its count and holds no line terminator. */
  lemma TextStartsWithCount(d: Duration)
    requires 0 <= d.multiplier <= IntMax
    ensures StartsWithCount(DurationText(d))
  {
    var digits := NatToString(d.multiplier);
    var word := Lower(IntervalName(d.interval)) + "s";
    var text := DurationText(d);
    LowerNameLetters(d.interval);
    assert text == digits + " " + word;
    assert text[0] == digits[0];
    forall j | 0 <= j < |text| ensures !IsLineTerminator(text[j]) {
      if j < |digits| {
        assert text[j] == digits[j];
      } else if j == |digits| {
        assert text[j] == ' ';
      } else {
        assert text[j] == word[j - |digits| - 1];
        assert IsLowerLetter(word[j - |digits| - 1]);
      }
    }
  }

  /** The digits of the written form are the printed count. */
  lemma DigitsOfText(d: Duration)
    requires 0 <= d.multiplier
    ensures Filter(DurationText(d), IsDigit) == NatToString(d.multiplier)
  {
    var digits := NatToString(d.multiplier);
    var n := Lower(IntervalName(d.interval));
    var rest := " " + n + "s";
    LowerNameLetters(d.interval);
    assert DurationText(d) == digits + rest;
    FilterAppend(digits, rest, IsDigit);
    FilterAllOrNone(digits, IsDigit);
    forall k | 0 <= k < |rest| ensures !IsDigit(rest[k]) {
      if 0 < k < |rest| - 1 {
        assert rest[k] == n[k - 1];
      }
    }
    FilterAllOrNone(rest, IsDigit);
    assert digits + [] == digits;
  }

  /** The count of the written form is the duration's count. */
  lemma CountOfText(d: Duration)
    requires 0 <= d.multiplier <= IntMax
    ensures CountOf(DurationText(d)) == d.multiplier
  {
    TextStartsWithCount(d);
    DigitsOfText(d);
    NatToStringRoundTrip(d.multiplier);
  }

  /** The name of the written form, without its "s", is the interval's name in lower case. */
  lemma NameOfText(d: Duration)
    requires 0 <= d.multiplier <= IntMax
    ensures NameOf(DurationText(d)) == Lower(IntervalName(d.interval))
  {
    var digits := NatToString(d.multiplier);
    var n := Lower(IntervalName(d.interval));
    var word := n + "s";
    LowerNameLetters(d.interval);
    TextStartsWithCount(d);
    assert DurationText(d) == (digits + " ") + word;
    FilterAppend(digits + " ", word, IsNeither);
    FilterAppend(digits, " ", IsNeither);
    FilterAllOrNone(digits, IsNeither);
    FilterAllOrNone(" ", IsNeither);
    assert forall k :: 0 <= k < |word| ==> IsNeither(word[k]);
    FilterAllOrNone(word, IsNeither);
    assert Filter(digits + " ", IsNeither) == [];
    assert Filter(DurationText(d), IsNeither) == word;
    TrimUntrimmable(word);
    assert word[..|word| - 1] == n;
  }

  /** Round trip: a count, a space and a plural interval name parse back to that duration. */
  lemma ParseDurationText(d: Duration)
    requires 0 <= d.multiplier <= IntMax
    ensures ParseDuration(DurationText(d)) == Some(d)
  {
    CountOfText(d);
    NameOfText(d);
    IntervalByLowerName(d.interval);
  }

  /** A bare interval name, as listed among the duration names, means one such interval. */
  lemma ParseBareName(i: Interval)
    ensures ParseDuration(Lower(IntervalName(i))) == Some(Duration(1, i))
  {
    var n := Lower(IntervalName(i));
    LowerNameLetters(i);
    assert !StartsWithCount(n);
    assert n[|n| - 1] != 's';
    assert NameOf(n) == n;
    IntervalByLowerName(i);
  }

  /** The example duration name is the written form of three days, so it parses back to three days. */
  lemma ExampleIsThreeDays()
    ensures DurationNames[6] == DurationText(Duration(3, DAY))
  {
    assert NatToString(3) == "3";
    assert Lower(IntervalName(DAY)) == "day";
  }
}
