/**
  The remaining-term part of the table exporter (core/TableExporter.py): the
  day difference between two dates split into whole 365-day years and 30-day
  months (`_date_dt`), and its Russian rendering (`_prepare_date_dt`).

  Dates are integer day ordinals. Python's `//` and `%` by a positive divisor
  round towards minus infinity; Dafny's Euclidean `/` and `%` agree with them
  for a positive divisor, so the formulas below hold for negative differences
  (a bond past maturity) as well.
 */
module TermFormat {
  import opened Wrappers
  import opened Decimal
  import opened Sequences

  /** A term as the source's `(years, months)` tuple. */
  type Term = (int, int)

  /** Number of months a term stands for: the denominator of the annualising exponent. */
  function TermMonths(t: Term): int {
    12 * t.0 + t.1
  }

  /**
    `_date_dt`: the whole years, then the whole months of the remainder, between
    `firstDate` and `secondDate`. A zero-length result is raised to one month.
   */
  function DateDt(firstDate: int, secondDate: int): (t: Term)
    // years: the number of whole 365-day years, rounded down
    ensures 365 * t.0 <= secondDate - firstDate < 365 * t.0 + 365
    // months: whole 30-day months of what is left over, unless the floor applied
    ensures t.0 != 0 || secondDate - firstDate >= 30 ==>
      30 * t.1 <= secondDate - firstDate - 365 * t.0 < 30 * t.1 + 30
    // the floor: under 30 days ahead still counts as one month
    ensures 0 <= secondDate - firstDate < 30 ==> t == (0, 1)
    ensures t != (0, 0)
    ensures 0 <= t.1 <= 12
    ensures secondDate >= firstDate ==> t.0 >= 0 && TermMonths(t) > 0
  {
    var dt := secondDate - firstDate;
    var years := dt / 365;
    var months := (dt % 365) / 30;
    if years == 0 && months == 0 then (years, 1) else (years, months)
  }

  const YearOne := "год"
  const YearFew := "года"
  const YearMany := "лет"
  const MonthOne := "месяц"
  const MonthFew := "месяца"
  const MonthMany := "месяцев"

  /**
    Reference choice of the year noun, by last digit as Python's `%` computes it:
    exactly one year takes "год", a last digit 2 to 4 takes "года", everything
    else takes "лет". There is no teen exception.
   */
  function YearNoun(years: int): (noun: string)
    ensures noun in {YearOne, YearFew, YearMany}
  {
    if years == 1 then YearOne
    else if 2 <= years % 10 <= 4 then YearFew
    else YearMany
  }

  /** Reference choice of the month noun: one, two to four, everything else. */
  function MonthNoun(months: int): (noun: string)
    ensures noun in {MonthOne, MonthFew, MonthMany}
  {
    if months == 1 then MonthOne
    else if 2 <= months <= 4 then MonthFew
    else MonthMany
  }

  /**
    The years part of `_prepare_date_dt`, with its guard as written. The teen
    exclusion `1 < years // 10 < 2` asks for an integer strictly between 1 and 2,
    so it never excludes anything: 12, 13 and 14 get "года".
   */
  function YearsSegment(years: int): (s: string)
    ensures s == "" <==> years == 0
    ensures years != 0 ==> s == IntToString(years) + " " + YearNoun(years) + " "
  {
    YearPhrases(years);
    if years == 1 then "1 год "
    else if 1 < years % 10 < 5 && !(1 < years / 10 < 2) then IntToString(years) + " года "
    else if years != 0 then IntToString(years) + " лет "
    else ""
  }

  /** The literal phrases of `YearsSegment` are the number, a space, a year noun and a space. */
  lemma YearPhrases(years: int)
    ensures "1 год " == IntToString(1) + " " + YearOne + " "
    ensures IntToString(years) + " года " == IntToString(years) + " " + YearFew + " "
    ensures IntToString(years) + " лет " == IntToString(years) + " " + YearMany + " "
  {
    assert IntToString(1) == "1";
    assert "1 год " == "1" + " " + YearOne + " ";
    SpacedWord(IntToString(years), YearFew);
    SpacedWord(IntToString(years), YearMany);
  }

  lemma SpacedWord(x: string, word: string)
    ensures x + (" " + word + " ") == x + " " + word + " "
  {
    AppendAssociative(x, " ", word);
    AppendAssociative(x + " " , word, " ");
    AppendAssociative(x, " " + word, " ");
  }

  /** The months part of `_prepare_date_dt`: always present, zero included. */
  function MonthsSegment(months: int): (s: string)
    ensures s == IntToString(months) + " " + MonthNoun(months)
  {
    if months == 1 then
      assert IntToString(1) == "1";
      "1 месяц"
    else if 1 < months < 5 then IntToString(months) + " месяца"
    else IntToString(months) + " месяцев"
  }

  predicate EndsWith(s: string, suffix: string) {
    |suffix| <= |s| && s[|s| - |suffix|..] == suffix
  }

  /**
    `_prepare_date_dt`: the years segment (if any) followed by the months
    segment. `PrepareDateDtRoundTrip` shows `ParseTerm` recovers the pair.
   */
  function PrepareDateDt(years: int, months: int): (s: string)
    ensures years == 0 ==> s == MonthsSegment(months)
  {
    YearsSegment(years) + MonthsSegment(months)
  }

  /** The months segment is always present and always ends the term. */
  lemma MonthsSegmentEndsTerm(years: int, months: int)
    ensures EndsWith(PrepareDateDt(years, months), MonthsSegment(months))
  {
    var s := PrepareDateDt(years, months);
    assert s[|s| - |MonthsSegment(months)|..] == MonthsSegment(months);
  }

  /**
    The years segment case by case. The teen guard drops out: any value other
    than 1 whose last digit is 2 to 4 gets "года", 12 to 14 included.
   */
  lemma YearsSegmentCases(years: int)
    ensures years == 0 ==> YearsSegment(years) == ""
    ensures years == 1 ==> YearsSegment(years) == "1 год "
    ensures years != 1 && 2 <= years % 10 <= 4 ==> YearsSegment(years) == IntToString(years) + " года "
    ensures years != 0 && years != 1 && !(2 <= years % 10 <= 4) ==> YearsSegment(years) == IntToString(years) + " лет "
  {
    assert IntToString(1) == "1";
  }

  /** The months segment case by case; 0 and 12 both take "месяцев". */
  lemma MonthsSegmentCases(months: int)
    ensures months == 1 ==> MonthsSegment(months) == "1 месяц"
    ensures 2 <= months <= 4 ==> MonthsSegment(months) == IntToString(months) + " месяца"
    ensures months <= 0 || months >= 5 ==> MonthsSegment(months) == IntToString(months) + " месяцев"
  {
    assert IntToString(1) == "1";
  }

  /** A zero month count is not omitted: the term ends in "0 месяцев" even after a years segment. */
  lemma ZeroMonthsRendered(years: int)
    ensures EndsWith(PrepareDateDt(years, 0), "0 месяцев")
  {
    assert IntToString(0) == "0";
    assert MonthsSegment(0) == "0 месяцев";
    MonthsSegmentEndsTerm(years, 0);
  }

  // ---------------------------------------------------------------------
  // Reading a term string back.

  /** Python's `s.split(" ")`. */
  function SplitSpaces(s: string): (parts: seq<string>)
    ensures |parts| >= 1
  {
    if s == [] then [[]]
    else
      var rest := SplitSpaces(s[1..]);
      if s[0] == ' ' then [[]] + rest else [[s[0]] + rest[0]] + rest[1..]
  }

  /**
    Inverse of `PrepareDateDt`: "<months> <month noun>" reads as zero years,
    "<years> <year noun> <months> <month noun>" as both.
   */
  function ParseTerm(s: string): Option<Term> {
    var parts := SplitSpaces(s);
    if |parts| == 2 && parts[1] in {MonthOne, MonthFew, MonthMany} then
      match ParseInt(parts[0])
      case Some(m) => Some((0, m))
      case None => None
    else if |parts| == 4 && parts[1] in {YearOne, YearFew, YearMany} && parts[3] in {MonthOne, MonthFew, MonthMany} then
      match (ParseInt(parts[0]), ParseInt(parts[2]))
      case (Some(y), Some(m)) => Some((y, m))
      case _ => None
    else None
  }

  lemma {:induction false} SplitWord(a: string)
    requires ' ' !in a
    ensures SplitSpaces(a) == [a]
  {
    if a != [] {
      SplitWord(a[1..]);
      assert [a[0]] + a[1..] == a;
    }
  }

  lemma {:induction false} SplitJoin(a: string, b: string)
    requires ' ' !in a
    ensures SplitSpaces(a + " " + b) == [a] + SplitSpaces(b)
  {
    var s := a + " " + b;
    if a == [] {
      assert s == " " + b;
      assert s[1..] == b;
    } else {
      assert s[1..] == a[1..] + " " + b;
      SplitJoin(a[1..], b);
      assert [a[0]] + a[1..] == a;
    }
  }

  lemma SplitTwoWords(a: string, b: string)
    requires ' ' !in a && ' ' !in b
    ensures SplitSpaces(a + " " + b) == [a, b]
  {
    SplitWord(b);
    SplitJoin(a, b);
  }

  lemma SplitFourWords(a: string, b: string, c: string, d: string)
    requires ' ' !in a && ' ' !in b && ' ' !in c && ' ' !in d
    ensures SplitSpaces(a + " " + b + " " + c + " " + d) == [a, b, c, d]
  {
    var cd := c + " " + d;
    var bcd := b + " " + cd;
    SplitTwoWords(c, d);
    SplitJoin(b, cd);
    SplitJoin(a, bcd);
    RegroupFour(a, b, c, d);
  }

  lemma RegroupFour(a: string, b: string, c: string, d: string)
    ensures a + " " + b + " " + c + " " + d == a + " " + (b + " " + (c + " " + d))
  {
  }

  lemma ParseMonthsOnly(months: int)
    ensures ParseTerm(IntToString(months) + " " + MonthNoun(months)) == Some((0, months))
  {
    var m := IntToString(months);
    var mn := MonthNoun(months);
    IntToStringRoundTrip(months);
    assert ' ' !in mn;
    SplitTwoWords(m, mn);
  }

  lemma ParseYearsAndMonths(years: int, months: int)
    ensures ParseTerm(IntToString(years) + " " + YearNoun(years) + " " + IntToString(months) + " " + MonthNoun(months))
         == Some((years, months))
  {
    var y := IntToString(years);
    var m := IntToString(months);
    var yn := YearNoun(years);
    var mn := MonthNoun(months);
    IntToStringRoundTrip(years);
    IntToStringRoundTrip(months);
    assert ' ' !in yn && ' ' !in mn;
    SplitFourWords(y, yn, m, mn);
  }

  lemma SegmentsRoundTrip(years: int, months: int)
    ensures ParseTerm(YearsSegment(years) + MonthsSegment(months)) == Some((years, months))
  {
    var y := IntToString(years);
    var m := IntToString(months);
    var yn := YearNoun(years);
    var mn := MonthNoun(months);
    if years == 0 {
      assert YearsSegment(years) + MonthsSegment(months) == m + " " + mn;
      ParseMonthsOnly(months);
    } else {
      var head := y + " " + yn + " ";
      assert YearsSegment(years) == head;
      assert MonthsSegment(months) == (m + " ") + mn;
      AppendAssociative(head, m + " ", mn);
      AppendAssociative(head, m, " ");
      assert YearsSegment(years) + MonthsSegment(months) == head + m + " " + mn;
      ParseYearsAndMonths(years, months);
    }
  }

  /** The rendering is lossless: parsing a rendered term gives back the pair. */
  lemma PrepareDateDtRoundTrip(years: int, months: int)
    ensures ParseTerm(PrepareDateDt(years, months)) == Some((years, months))
  {
    SegmentsRoundTrip(years, months);
  }

  /** Different terms never render to the same string. */
  lemma PrepareDateDtInjective(y1: int, m1: int, y2: int, m2: int)
    ensures PrepareDateDt(y1, m1) == PrepareDateDt(y2, m2) ==> y1 == y2 && m1 == m2
  {
    PrepareDateDtRoundTrip(y1, m1);
    PrepareDateDtRoundTrip(y2, m2);
  }

  /**
    A bond that matured one to five days ago gets the term (-1, 12), whose
    month count is zero: the annualising exponent at core/TableExporter.py:57
    would divide by zero for it.
   */
  lemma RecentlyMaturedTermIsZeroMonths(today: int, maturity: int)
    requires today - 5 <= maturity < today
    ensures DateDt(today, maturity) == (-1, 12)
    ensures TermMonths(DateDt(today, maturity)) == 0
  {
  }

  /**
    Conversely, only such a bond gets a zero month count: for every pair of
    dates, the count is zero exactly when maturity lies 1 to 5 days before today.
   */
  lemma ZeroMonthTermIsRecentlyMatured(today: int, maturity: int)
    ensures TermMonths(DateDt(today, maturity)) == 0 <==> today - 5 <= maturity < today
  {
  }
}
