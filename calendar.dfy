/** The part of Python's `datetime` the attendance scripts use: Gregorian
    dates, `d + timedelta(days=1)` and the comparison `d < end`. */
module Calendar {
  datatype Date = Date(year: int, month: int, day: int)

  predicate LeapYear(y: int) {
    y % 4 == 0 && (y % 100 != 0 || y % 400 == 0)
  }

  function DaysInMonth(y: int, m: int): (n: int)
    requires 1 <= m <= 12
    ensures 28 <= n <= 31
  {
    if m == 2 then (if LeapYear(y) then 29 else 28)
    else if m == 4 || m == 6 || m == 9 || m == 11 then 30
    else 31
  }

  predicate Valid(d: Date) {
    1 <= d.month <= 12 && 1 <= d.day <= DaysInMonth(d.year, d.month)
  }

  /** `a < b` on dates: by year, then month, then day. */
  predicate Before(a: Date, b: Date) {
    || a.year < b.year
    || (a.year == b.year && a.month < b.month)
    || (a.year == b.year && a.month == b.month && a.day < b.day)
  }

  /** `d + timedelta(days=1)`. */
  function NextDay(d: Date): (r: Date)
    requires Valid(d)
    ensures Valid(r) && Before(d, r)
  {
    if d.day < DaysInMonth(d.year, d.month) then Date(d.year, d.month, d.day + 1)
    else if d.month < 12 then Date(d.year, d.month + 1, 1)
    else Date(d.year + 1, 1, 1)
  }

  /** No valid date lies strictly between a date and the next day. */
  lemma NextDayIsNext(d: Date, x: Date)
    requires Valid(d) && Valid(x) && Before(d, x)
    ensures !Before(x, NextDay(d))
  {
  }

  /** `d + timedelta(days=n)` for `n >= 0`. */
  function DateAfter(d: Date, n: nat): (r: Date)
    requires Valid(d)
    ensures Valid(r)
  {
    if n == 0 then d else NextDay(DateAfter(d, n - 1))
  }

  /** Adding more days gives a later date. */
  lemma {:induction false} DateAfterIncreasing(d: Date, i: nat, j: nat)
    requires Valid(d) && i < j
    ensures Before(DateAfter(d, i), DateAfter(d, j))
    decreases j
  {
    if i < j - 1 {
      DateAfterIncreasing(d, i, j - 1);
    }
  }

  /** The dates a `while current < end` loop visits from `cur`, one day
      at a time. */
  function DatesFrom(cur: Date, end: Date): (r: seq<Date>)
    requires Valid(cur)
    decreases end.year - cur.year, 12 - cur.month, 31 - cur.day
  {
    if !Before(cur, end) then []
    else [cur] + DatesFrom(NextDay(cur), end)
  }

  /** The loop visits `cur` first, then each next day in turn, and only
      dates in `[cur, end)`. */
  lemma {:induction false} DatesFromConsecutive(cur: Date, end: Date)
    requires Valid(cur)
    ensures var r := DatesFrom(cur, end);
      && (r != [] <==> Before(cur, end))
      && (r != [] ==> r[0] == cur)
      && (forall i :: 0 <= i < |r| ==> Valid(r[i]) && !Before(r[i], cur) && Before(r[i], end))
      && (forall i :: 0 <= i < |r| - 1 ==> r[i + 1] == NextDay(r[i]))
    decreases end.year - cur.year, 12 - cur.month, 31 - cur.day
  {
    if Before(cur, end) {
      var n := NextDay(cur);
      DatesFromConsecutive(n, end);
      var r := DatesFrom(cur, end);
      assert r == [cur] + DatesFrom(n, end);
      forall i | 0 < i < |r| ensures !Before(r[i], cur) {
        assert r[i] == DatesFrom(n, end)[i - 1];
      }
    }
  }

  /** Every valid date in `[cur, end)` is visited. */
  lemma {:induction false} DatesFromCovers(cur: Date, end: Date, x: Date)
    requires Valid(cur) && Valid(x) && !Before(x, cur) && Before(x, end)
    ensures x in DatesFrom(cur, end)
    decreases end.year - cur.year, 12 - cur.month, 31 - cur.day
  {
    if x != cur {
      NextDayIsNext(cur, x);
      DatesFromCovers(NextDay(cur), end, x);
    }
  }

  /** The `i`-th visited date is `i` days after the first. */
  lemma {:induction false} DatesFromAreDateAfter(cur: Date, end: Date, i: nat)
    requires Valid(cur) && i < |DatesFrom(cur, end)|
    ensures DatesFrom(cur, end)[i] == DateAfter(cur, i)
    decreases i
  {
    if i > 0 {
      DatesFromConsecutive(cur, end);
      DatesFromAreDateAfter(cur, end, i - 1);
    }
  }
}
