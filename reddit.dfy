/** The comment records shared by the three scripts, and the calendar arithmetic
    they rely on: pandas timestamps, their chronological order, `strftime("%Y-%m")`
    month keys and the month starts produced by `pd.date_range(freq="MS")`. */
module Reddit {
  import opened Wrappers

  /** A pandas timestamp: a calendar date plus the second of the day. */
  datatype DateTime = DateTime(year: int, month: int, day: int, second: int)

  function DaysInMonth(year: int, month: int): int {
    if month == 2 then
      (if (year % 4 == 0 && year % 100 != 0) || year % 400 == 0 then 29 else 28)
    else if month == 4 || month == 6 || month == 9 || month == 11 then 30
    else 31
  }

  predicate ValidDateTime(t: DateTime) {
    && 1 <= t.month <= 12
    && 1 <= t.day <= DaysInMonth(t.year, t.month)
    && 0 <= t.second < 86400
  }

  /** Chronological order `a <= b` of two timestamps. */
  predicate AtOrBefore(a: DateTime, b: DateTime) {
    || a.year < b.year
    || (a.year == b.year && a.month < b.month)
    || (a.year == b.year && a.month == b.month && a.day < b.day)
    || (a.year == b.year && a.month == b.month && a.day == b.day && a.second <= b.second)
  }

  /** A calendar month; the scripts render it as the label `"%Y-%m"`. */
  datatype YearMonth = YearMonth(year: int, month: int)

  predicate ValidMonth(m: YearMonth) {
    1 <= m.month <= 12
  }

  function MonthOf(t: DateTime): YearMonth {
    YearMonth(t.year, t.month)
  }

  /** The first day of month `m` at second `t` of the day. */
  function MonthStartAt(m: YearMonth, t: int): DateTime {
    DateTime(m.year, m.month, 1, t)
  }

  /** Months counted from January of year 0; consecutive months differ by one. */
  function MonthNumber(m: YearMonth): int {
    m.year * 12 + m.month - 1
  }

  function MonthAt(k: int): (m: YearMonth)
    ensures ValidMonth(m) && MonthNumber(m) == k
  {
    YearMonth(k / 12, k % 12 + 1)
  }

  lemma MonthAtNumber(m: YearMonth)
    requires ValidMonth(m)
    ensures MonthAt(MonthNumber(m)) == m
  {
    var k := MonthNumber(m);
    assert k == m.year * 12 + (m.month - 1) && 0 <= m.month - 1 < 12;
    assert k / 12 == m.year && k % 12 == m.month - 1;
  }

  /** `MonthBegin.is_on_offset`: only the day is tested, not the time of day. */
  predicate OnMonthStart(t: DateTime) {
    t.day == 1
  }

  /** The upper bound `pd.date_range` compares against: when `start` is already
      a month start but `end` is not, `end` is rolled back to the first day of
      its month, keeping its own time of day. */
  function RangeEnd(start: DateTime, end: DateTime): DateTime {
    if !OnMonthStart(start) then end
    else if !OnMonthStart(end) then DateTime(end.year, end.month, 1, end.second)
    else end
  }

  /** The number of the first generated month: the month of `start` when it is
      a month start, else the next one (`rollforward`, which keeps the time of
      day). */
  function FirstMonthNumber(start: DateTime): int {
    if OnMonthStart(start) then MonthNumber(MonthOf(start))
    else MonthNumber(MonthOf(start)) + 1
  }

  /** The number of the last month whose first day, at the time of day of
      `start`, is not after the range end. */
  function LastMonthNumber(start: DateTime, end: DateTime): int {
    var e := RangeEnd(start, end);
    if AtOrBefore(MonthStartAt(MonthOf(e), start.second), e) then MonthNumber(MonthOf(e))
    else MonthNumber(MonthOf(e)) - 1
  }

  lemma MonthsAt(lo: int, r: seq<YearMonth>)
    requires forall k :: 0 <= k < |r| ==> r[k] == MonthAt(lo + k)
    ensures forall k :: 0 <= k < |r| ==> ValidMonth(r[k]) && MonthNumber(r[k]) == lo + k
  {
    forall k | 0 <= k < |r|
      ensures ValidMonth(r[k]) && MonthNumber(r[k]) == lo + k
    {
      var m := MonthAt(lo + k);
      assert ValidMonth(m) && MonthNumber(m) == lo + k;
    }
  }

  /** The months of `pd.date_range(start, end, freq="MS")`: the generated
      timestamps are the first days of these months, each at the time of day of
      `start`. */
  function MonthRange(start: DateTime, end: DateTime): (r: seq<YearMonth>)
    ensures forall k :: 0 <= k < |r| ==> ValidMonth(r[k])
    ensures forall k :: 0 <= k < |r| ==> MonthNumber(r[k]) == FirstMonthNumber(start) + k
  {
    var lo, hi := FirstMonthNumber(start), LastMonthNumber(start, end);
    var n := if lo <= hi then hi - lo + 1 else 0;
    var r := seq(n, k requires 0 <= k < n => MonthAt(lo + k));
    assert forall k :: 0 <= k < n ==> r[k] == MonthAt(lo + k);
    MonthsAt(lo, r);
    r
  }

  /** The columns are chronological, consecutive and pairwise distinct. */
  lemma MonthRangeConsecutive(start: DateTime, end: DateTime)
    ensures var r := MonthRange(start, end);
      && (forall k :: 0 < k < |r| ==> MonthNumber(r[k]) == MonthNumber(r[k - 1]) + 1)
      && (forall i, j :: 0 <= i < j < |r| ==> MonthNumber(r[i]) < MonthNumber(r[j]))
      && (forall i, j :: 0 <= i < j < |r| ==> r[i] != r[j])
  {
  }

  /** A month is a column exactly when its first day, at the time of day of
      `start`, lies in the closed interval from `start` to the range end. */
  lemma MonthRangeExact(start: DateTime, end: DateTime, m: YearMonth)
    requires ValidDateTime(start) && ValidDateTime(end) && ValidMonth(m)
    ensures var first := MonthStartAt(m, start.second);
      m in MonthRange(start, end) <==>
        AtOrBefore(start, first) && AtOrBefore(first, RangeEnd(start, end))
  {
    var r := MonthRange(start, end);
    var lo, hi := FirstMonthNumber(start), LastMonthNumber(start, end);
    var n := MonthNumber(m);
    var first := MonthStartAt(m, start.second);
    assert AtOrBefore(start, first) <==> lo <= n;
    assert AtOrBefore(first, RangeEnd(start, end)) <==> n <= hi;
    if lo <= n <= hi {
      MonthAtNumber(m);
      assert r[n - lo] == m;
    }
    if m in r {
      var k :| 0 <= k < |r| && r[k] == m;
      assert n == lo + k;
    }
  }

  /** For the script's arguments, midnight on 2022-01-01 and 2024-11-30, the
      columns run from January 2022 to November 2024. */
  lemma ScriptMonths()
    ensures var r := MonthRange(DateTime(2022, 1, 1, 0), DateTime(2024, 11, 30, 0));
      |r| == 35 && r[0] == YearMonth(2022, 1) && r[34] == YearMonth(2024, 11)
  {
    var r := MonthRange(DateTime(2022, 1, 1, 0), DateTime(2024, 11, 30, 0));
    MonthAtNumber(YearMonth(2022, 1));
    MonthAtNumber(YearMonth(2024, 11));
  }

  /** A start on the first of a month at 10:00 keeps that month, and the time of
      day decides whether the month of an end on the first day is included. */
  lemma TimeOfDayMonths()
    ensures MonthRange(DateTime(2022, 1, 1, 36000), DateTime(2022, 3, 31, 0))
         == [YearMonth(2022, 1), YearMonth(2022, 2)]
    ensures MonthRange(DateTime(2022, 1, 1, 36000), DateTime(2022, 3, 1, 18000))
         == [YearMonth(2022, 1), YearMonth(2022, 2)]
  {
    MonthAtNumber(YearMonth(2022, 1));
    MonthAtNumber(YearMonth(2022, 2));
  }

  /** One row of the comment table: `created_time` (None for NaT after
      `pd.to_datetime(..., errors="coerce")`), `author_name`, `post_id`,
      `subreddit` and `self_text` (None for NaN). */
  datatype Comment = Comment(
    created: Option<DateTime>,
    author: string,
    post: int,
    subreddit: string,
    text: Option<string>)
}
