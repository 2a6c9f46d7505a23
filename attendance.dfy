/** `script/attendace.py`: one attendance row per employee per day from
    2025-01-01 up to (not including) 2025-04-01. A day is Present unless a
    draw of `random.random()` falls below 0.05 (Absent) or 0.10 (On
    Leave), and each employee gets at most two such days per calendar
    month: once a month has two, no more draws are made for it. The
    employee ids come from the database; the draws are a stream. */
module Attendance {
  import opened Calendar
  import opened Text

  datatype Status = Present | Absent | OnLeave

  /** A row of `INSERT INTO attendance (employee_id, date, status)`. */
  datatype Record = Record(employeeId: int, date: Date, status: Status)

  type YearMonth = (int, int)

  /** The row of `monthly_offs` a date counts in. */
  function MonthOf(d: Date): YearMonth {
    (d.year, d.month)
  }

  const StartDate := Date(2025, 1, 1)
  const EndDate := Date(2025, 4, 1)
  const MaxOffs: nat := 2
  const AbsentBelow: real := 0.05
  const LeaveBelow: real := 0.10

  /** `monthly_offs.get(ym, 0)` */
  function Offs(offs: map<YearMonth, nat>, ym: YearMonth): nat {
    if ym in offs then offs[ym] else 0
  }

  /** One iteration of the day loop: the status of `d`, the updated
      `monthly_offs` and the position in the draw stream. */
  function DayStep(d: Date, offs: map<YearMonth, nat>, cursor: nat, draws: nat -> real): (Status, map<YearMonth, nat>, nat) {
    var ym := MonthOf(d);
    var offs1 := if ym in offs then offs else offs[ym := 0];
    if offs1[ym] < MaxOffs then
      var rand := draws(cursor);
      if rand < AbsentBelow then (Absent, offs1[ym := offs1[ym] + 1], cursor + 1)
      else if rand < LeaveBelow then (OnLeave, offs1[ym := offs1[ym] + 1], cursor + 1)
      else (Present, offs1, cursor + 1)
    else (Present, offs1, cursor)
  }

  /** What the day loop leaves behind for one employee. */
  datatype Run = Run(records: seq<Record>, offs: map<YearMonth, nat>, cursor: nat)

  /** The day loop for `emp` over `dates`, from a given `monthly_offs`
      and stream position. */
  function EmployeeRun(emp: int, dates: seq<Date>, offs: map<YearMonth, nat>, cursor: nat, draws: nat -> real): Run
    decreases |dates|
  {
    if dates == [] then Run([], offs, cursor)
    else
      var step := DayStep(dates[0], offs, cursor, draws);
      var rest := EmployeeRun(emp, dates[1..], step.1, step.2, draws);
      Run([Record(emp, dates[0], step.0)] + rest.records, rest.offs, rest.cursor)
  }

  /** The dates of the loop: 2025-01-01 up to 2025-04-01. */
  function Days(): seq<Date> {
    DatesFrom(StartDate, EndDate)
  }

  /** The day loops of the whole script over `dates`: each employee in
      turn, with a fresh `monthly_offs`, the draw stream shared. */
  function Runs(emps: seq<int>, dates: seq<Date>, cursor: nat, draws: nat -> real): (r: seq<Run>)
    ensures |r| == |emps|
    decreases |emps|
  {
    if emps == [] then []
    else
      var run := EmployeeRun(emps[0], dates, map[], cursor, draws);
      [run] + Runs(emps[1..], dates, run.cursor, draws)
  }

  /** The rows the runs insert, one run after the other. */
  function Rows(runs: seq<Run>): seq<Record>
    decreases |runs|
  {
    if runs == [] then [] else runs[0].records + Rows(runs[1..])
  }

  /** The first run, then the others from where it left the stream. */
  lemma RunsUnfold(emps: seq<int>, dates: seq<Date>, cursor: nat, draws: nat -> real)
    requires emps != []
    ensures var run := EmployeeRun(emps[0], dates, map[], cursor, draws);
      Rows(Runs(emps, dates, cursor, draws)) == run.records + Rows(Runs(emps[1..], dates, run.cursor, draws))
  {
    RunsUnfoldRuns(emps, dates, cursor, draws);
  }

  lemma RunsUnfoldRuns(emps: seq<int>, dates: seq<Date>, cursor: nat, draws: nat -> real)
    requires emps != []
    ensures var run := EmployeeRun(emps[0], dates, map[], cursor, draws);
      Runs(emps, dates, cursor, draws) == [run] + Runs(emps[1..], dates, run.cursor, draws)
  {
    var run := EmployeeRun(emps[0], dates, map[], cursor, draws);
    assert Runs(emps, dates, cursor, draws) == [run] + Runs(emps[1..], dates, run.cursor, draws);
    assert ([run] + Runs(emps[1..], dates, run.cursor, draws))[1..] == Runs(emps[1..], dates, run.cursor, draws);
  }

  /** The day loop takes `cur`'s step first and then goes on from the
      next day. */
  lemma RunUnfolds(emp: int, cur: Date, end: Date, offs: map<YearMonth, nat>, cursor: nat, draws: nat -> real)
    requires Valid(cur) && Before(cur, end)
    ensures var step := DayStep(cur, offs, cursor, draws);
      var rest := EmployeeRun(emp, DatesFrom(NextDay(cur), end), step.1, step.2, draws);
      EmployeeRun(emp, DatesFrom(cur, end), offs, cursor, draws)
        == Run([Record(emp, cur, step.0)] + rest.records, rest.offs, rest.cursor)
  {
    assert DatesFrom(cur, end) == [cur] + DatesFrom(NextDay(cur), end);
  }

  /** The body of the day loop: the status of `currentDate`, with
      `monthly_offs` and the draw stream moved on. */
  method AttendanceDay(currentDate: Date, offs: map<YearMonth, nat>, cursor: nat, draws: nat -> real)
    returns (status: Status, monthlyOffs: map<YearMonth, nat>, next: nat)
    ensures (status, monthlyOffs, next) == DayStep(currentDate, offs, cursor, draws)
  {
    monthlyOffs := offs;
    next := cursor;
    var yearMonth := MonthOf(currentDate);
    if yearMonth !in monthlyOffs {
      monthlyOffs := monthlyOffs[yearMonth := 0];
    }
    status := Present;
    if monthlyOffs[yearMonth] < MaxOffs {
      var rand := draws(next);
      next := next + 1;
      if rand < AbsentBelow {
        status := Absent;
        monthlyOffs := monthlyOffs[yearMonth := monthlyOffs[yearMonth] + 1];
      } else if rand < LeaveBelow {
        status := OnLeave;
        monthlyOffs := monthlyOffs[yearMonth := monthlyOffs[yearMonth] + 1];
      }
    }
  }

  /** The `while current_date < end_date` loop for one employee. */
  method EmployeeAttendance(emp: int, startDate: Date, endDate: Date, cursor: nat, draws: nat -> real)
    returns (records: seq<Record>, next: nat)
    requires Valid(startDate)
    ensures var run := EmployeeRun(emp, DatesFrom(startDate, endDate), map[], cursor, draws);
      records == run.records && next == run.cursor
  {
    ghost var goal := EmployeeRun(emp, DatesFrom(startDate, endDate), map[], cursor, draws);
    var currentDate := startDate;
    var monthlyOffs: map<YearMonth, nat> := map[];
    records := [];
    next := cursor;
    while Before(currentDate, endDate)
      invariant Valid(currentDate)
      invariant var rest := EmployeeRun(emp, DatesFrom(currentDate, endDate), monthlyOffs, next, draws);
        records + rest.records == goal.records && rest.cursor == goal.cursor
      decreases endDate.year - currentDate.year, 12 - currentDate.month, 31 - currentDate.day
    {
      RunUnfolds(emp, currentDate, endDate, monthlyOffs, next, draws);
      var status;
      status, monthlyOffs, next := AttendanceDay(currentDate, monthlyOffs, next, draws);
      records := records + [Record(emp, currentDate, status)];
      currentDate := NextDay(currentDate);
    }
  }

  /** The script's outer loop over the employee ids. */
  method PopulateAttendance(employees: seq<int>, startDate: Date, endDate: Date, draws: nat -> real)
    returns (records: seq<Record>)
    requires Valid(startDate)
    ensures records == Rows(Runs(employees, DatesFrom(startDate, endDate), 0, draws))
  {
    records := [];
    var cursor := 0;
    ghost var dates := DatesFrom(startDate, endDate);
    ghost var goal := Rows(Runs(employees, dates, 0, draws));
    assert employees[0..] == employees;
    for k := 0 to |employees|
      invariant records + Rows(Runs(employees[k..], dates, cursor, draws)) == goal
    {
      RunsUnfold(employees[k..], dates, cursor, draws);
      assert employees[k..][0] == employees[k] && employees[k..][1..] == employees[k + 1..];
      var block, next := EmployeeAttendance(employees[k], startDate, endDate, cursor, draws);
      AppendAssoc(records, block, Rows(Runs(employees[k + 1..], dates, next, draws)));
      records := records + block;
      cursor := next;
    }
    assert records + [] == records;
  }

  /** The script: every employee id, 2025-01-01 up to 2025-04-01. */
  method PopulateQuarter(employees: seq<int>, draws: nat -> real) returns (records: seq<Record>)
    ensures records == Rows(Runs(employees, Days(), 0, draws))
  {
    records := PopulateAttendance(employees, StartDate, EndDate, draws);
  }

  /** The non-Present rows of `records` that fall in month `ym`. */
  function OffCount(records: seq<Record>, ym: YearMonth): nat
    decreases |records|
  {
    if records == [] then 0
    else
      var here := if records[0].status != Present && MonthOf(records[0].date) == ym then 1 else 0;
      here + OffCount(records[1..], ym)
  }

  lemma {:induction false} OffCountAppend(a: seq<Record>, b: seq<Record>, ym: YearMonth)
    ensures OffCount(a + b, ym) == OffCount(a, ym) + OffCount(b, ym)
    decreases |a|
  {
    if a == [] {
      assert a + b == b;
    } else {
      assert (a + b)[1..] == a[1..] + b;
      OffCountAppend(a[1..], b, ym);
    }
  }

  /** One row per date, for `emp`, in the order of the dates. */
  lemma {:induction false} RunShape(emp: int, dates: seq<Date>, offs: map<YearMonth, nat>, cursor: nat, draws: nat -> real)
    ensures var rs := EmployeeRun(emp, dates, offs, cursor, draws).records;
      && |rs| == |dates|
      && forall i :: 0 <= i < |rs| ==> rs[i].employeeId == emp && rs[i].date == dates[i]
    decreases |dates|
  {
    if dates != [] {
      var step := DayStep(dates[0], offs, cursor, draws);
      RunShape(emp, dates[1..], step.1, step.2, draws);
    }
  }

  /** The counter of a month goes up exactly once per non-Present day of
      that month: at the end it is where it started plus those days. */
  lemma {:induction false} CounterCountsOffs(emp: int, dates: seq<Date>, offs: map<YearMonth, nat>, cursor: nat, draws: nat -> real, ym: YearMonth)
    ensures var run := EmployeeRun(emp, dates, offs, cursor, draws);
      Offs(run.offs, ym) == Offs(offs, ym) + OffCount(run.records, ym)
    decreases |dates|
  {
    if dates != [] {
      var step := DayStep(dates[0], offs, cursor, draws);
      var rest := EmployeeRun(emp, dates[1..], step.1, step.2, draws).records;
      var rs := [Record(emp, dates[0], step.0)] + rest;
      assert EmployeeRun(emp, dates, offs, cursor, draws).records == rs;
      assert rs[1..] == rest;
      DayStepCounts(dates[0], offs, cursor, draws, ym);
      CounterCountsOffs(emp, dates[1..], step.1, step.2, draws, ym);
    }
  }

  /** One day moves the counter of its month by one exactly when it is
      not Present, and no other counter. */
  lemma DayStepCounts(d: Date, offs: map<YearMonth, nat>, cursor: nat, draws: nat -> real, ym: YearMonth)
    ensures var step := DayStep(d, offs, cursor, draws);
      Offs(step.1, ym) == Offs(offs, ym) + (if step.0 != Present && MonthOf(d) == ym then 1 else 0)
  {
  }

  /** A counter that starts at two or less never passes two. */
  lemma {:induction false} CounterBounded(emp: int, dates: seq<Date>, offs: map<YearMonth, nat>, cursor: nat, draws: nat -> real, ym: YearMonth)
    requires forall m :: m in offs ==> offs[m] <= MaxOffs
    ensures Offs(EmployeeRun(emp, dates, offs, cursor, draws).offs, ym) <= MaxOffs
    decreases |dates|
  {
    if dates != [] {
      var step := DayStep(dates[0], offs, cursor, draws);
      CounterBounded(emp, dates[1..], step.1, step.2, draws, ym);
    }
  }

  /** Starting from a fresh `monthly_offs`, no month has more than two
      days off, whatever the draws. */
  lemma MonthlyCap(emp: int, dates: seq<Date>, cursor: nat, draws: nat -> real, ym: YearMonth)
    ensures OffCount(EmployeeRun(emp, dates, map[], cursor, draws).records, ym) <= MaxOffs
  {
    CounterCountsOffs(emp, dates, map[], cursor, draws, ym);
    CounterBounded(emp, dates, map[], cursor, draws, ym);
  }

  /** Once a month's counter has reached two, every later day of that
      month is Present, whatever the draws. */
  lemma {:induction false} SaturatedMonthPresent(emp: int, dates: seq<Date>, offs: map<YearMonth, nat>, cursor: nat, draws: nat -> real, j: nat)
    requires j < |dates|
    requires var rs := EmployeeRun(emp, dates, offs, cursor, draws).records;
      |rs| == |dates| && Offs(offs, MonthOf(dates[j])) + OffCount(rs[..j], MonthOf(dates[j])) >= MaxOffs
    ensures EmployeeRun(emp, dates, offs, cursor, draws).records[j].status == Present
    decreases j
  {
    var ym := MonthOf(dates[j]);
    var step := DayStep(dates[0], offs, cursor, draws);
    var tail := EmployeeRun(emp, dates[1..], step.1, step.2, draws).records;
    var rs := [Record(emp, dates[0], step.0)] + tail;
    assert EmployeeRun(emp, dates, offs, cursor, draws).records == rs;
    if j > 0 {
      assert rs[..j] == [rs[0]] + tail[..j - 1];
      assert ([rs[0]] + tail[..j - 1])[1..] == tail[..j - 1];
      DayStepCounts(dates[0], offs, cursor, draws, ym);
      assert dates[1..][j - 1] == dates[j];
      SaturatedMonthPresent(emp, dates[1..], step.1, step.2, draws, j - 1);
      assert rs[j] == tail[j - 1];
    }
  }

  /** Each employee's rows cover the dates in order: exactly one row for
      every date of `[start, end)` and none outside it. */
  lemma OneRowPerDay(emp: int, start: Date, end: Date, cursor: nat, draws: nat -> real)
    requires Valid(start)
    ensures var rs := EmployeeRun(emp, DatesFrom(start, end), map[], cursor, draws).records;
      && (forall i, j :: 0 <= i < j < |rs| ==> Before(rs[i].date, rs[j].date))
      && (forall x :: Valid(x) && !Before(x, start) && Before(x, end) ==>
            exists i :: 0 <= i < |rs| && rs[i].date == x)
      && (forall i :: 0 <= i < |rs| ==> !Before(rs[i].date, start) && Before(rs[i].date, end))
      && (forall i :: 0 <= i < |rs| ==> rs[i].employeeId == emp)
  {
    var dates := DatesFrom(start, end);
    var rs := EmployeeRun(emp, dates, map[], cursor, draws).records;
    RunShape(emp, dates, map[], cursor, draws);
    DatesFromConsecutive(start, end);
    forall i, j | 0 <= i < j < |rs| ensures Before(rs[i].date, rs[j].date) {
      DatesFromAreDateAfter(start, end, i);
      DatesFromAreDateAfter(start, end, j);
      DateAfterIncreasing(start, i, j);
    }
    forall x | Valid(x) && !Before(x, start) && Before(x, end)
      ensures exists i :: 0 <= i < |rs| && rs[i].date == x
    {
      DatesFromCovers(start, end, x);
      var i :| 0 <= i < |dates| && dates[i] == x;
      assert rs[i].date == x;
    }
  }

  /** `monthly_offs` is fresh for each employee: the `k`-th run is the day
      loop for the `k`-th id from an empty map, and only the position in
      the draw stream carries over from the run before. */
  lemma {:induction false} FreshPerEmployee(emps: seq<int>, dates: seq<Date>, cursor: nat, draws: nat -> real, k: nat)
    requires k < |emps|
    ensures var runs := Runs(emps, dates, cursor, draws);
      runs[k] == EmployeeRun(emps[k], dates, map[], if k == 0 then cursor else runs[k - 1].cursor, draws)
    decreases k
  {
    if k > 0 {
      var run := EmployeeRun(emps[0], dates, map[], cursor, draws);
      FreshPerEmployee(emps[1..], dates, run.cursor, draws, k - 1);
      assert emps[1..][k - 1] == emps[k];
    }
  }

  /** Every employee's rows: one per date in date order, for that id, with
      at most two days off in any month. */
  lemma EveryEmployeeCapped(emps: seq<int>, dates: seq<Date>, cursor: nat, draws: nat -> real, k: nat, ym: YearMonth)
    requires k < |emps|
    ensures var rs := Runs(emps, dates, cursor, draws)[k].records;
      && |rs| == |dates|
      && (forall i :: 0 <= i < |rs| ==> rs[i].employeeId == emps[k] && rs[i].date == dates[i])
      && OffCount(rs, ym) <= MaxOffs
  {
    var runs := Runs(emps, dates, cursor, draws);
    var c := if k == 0 then cursor else runs[k - 1].cursor;
    FreshPerEmployee(emps, dates, cursor, draws, k);
    RunShape(emps[k], dates, map[], c, draws);
    MonthlyCap(emps[k], dates, c, draws, ym);
  }

  /** The script inserts `|emps| * |dates|` rows, the runs one after the
      other. */
  lemma {:induction false} RowCount(emps: seq<int>, dates: seq<Date>, cursor: nat, draws: nat -> real)
    ensures |Rows(Runs(emps, dates, cursor, draws))| == |emps| * |dates|
    decreases |emps|
  {
    if emps != [] {
      var run := EmployeeRun(emps[0], dates, map[], cursor, draws);
      RunShape(emps[0], dates, map[], cursor, draws);
      RunsUnfold(emps, dates, cursor, draws);
      RowCount(emps[1..], dates, run.cursor, draws);
      MulSucc(|emps| - 1, |dates|);
    }
  }

  lemma MulSucc(n: nat, k: nat)
    ensures (n + 1) * k == n * k + k
  {
  }

  /** The first of the month after `(y, m)`. */
  function FirstOfNextMonth(y: int, m: int): Date {
    if m < 12 then Date(y, m + 1, 1) else Date(y + 1, 1, 1)
  }

  /** The loop spends the rest of a month, day by day, before moving to
      the next one. */
  lemma {:induction false} RestOfMonth(y: int, m: int, d: int, end: Date)
    requires 1 <= m <= 12 && 1 <= d <= DaysInMonth(y, m)
    requires !Before(end, FirstOfNextMonth(y, m))
    ensures |DatesFrom(Date(y, m, d), end)| == DaysInMonth(y, m) - d + 1 + |DatesFrom(FirstOfNextMonth(y, m), end)|
    decreases DaysInMonth(y, m) - d
  {
    assert Before(Date(y, m, d), end);
    if d < DaysInMonth(y, m) {
      RestOfMonth(y, m, d + 1, end);
    }
  }

  /** January to March of a common year hold 90 days. */
  lemma FirstQuarter(y: int)
    requires !LeapYear(y)
    ensures |DatesFrom(Date(y, 1, 1), Date(y, 4, 1))| == 90
  {
    var end := Date(y, 4, 1);
    RestOfMonth(y, 1, 1, end);
    RestOfMonth(y, 2, 1, end);
    RestOfMonth(y, 3, 1, end);
    assert DatesFrom(end, end) == [];
  }

  /** The script's range holds the 90 days of January to March 2025. */
  lemma NinetyDays()
    ensures |Days()| == 90
  {
    FirstQuarter(2025);
  }
}
