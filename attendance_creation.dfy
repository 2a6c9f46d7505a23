/** `script/attendace_creation.py`: builds the HRMS sample database. Eight
    departments and eight roles; 500 employees with distinct names, each
    with an e-mail made from the name and a random department and role;
    one salary per employee; one attendance row per employee per day from
    2025-01-01 to today; the attendance rows inserted in batches of 10000.
    Faker's draws and the `random` module's draws are streams. */
module AttendanceCreation {
  import opened Text
  import opened Calendar

  const Departments: seq<string> := ["Engineering", "Sales", "Marketing", "HR", "Finance", "Support", "Operations", "IT"]
  const Roles: seq<string> := ["Engineer", "Manager", "HR Specialist", "Sales Rep", "Accountant", "IT Admin", "Data Analyst", "Executive"]
  const EmployeeCount := 500
  const MinSalary := 30000
  const MaxSalary := 120000
  const ChunkSize := 10000
  const AttendanceStart := Date(2025, 1, 1)

  /** A drawn `(first, last)` pair. */
  type Name = (string, string)

  /** A row of `employee_data`. */
  datatype Employee = Employee(
    firstName: string, lastName: string, email: string,
    departmentId: int, roleId: int, hireDate: string)

  /** The draws the script makes. `names` are Faker's `(first_name(),
      last_name())` pairs, `fakeDates` its `date_between(...).isoformat()`
      results, `ints` what `random.randint` reduces, `units` the
      `random.random()` values behind `random.choices`. */
  datatype Draws = Draws(
    names: nat -> Name,
    fakeDates: nat -> string,
    ints: nat -> nat,
    units: nat -> real)

  /** `random.randint(a, b)` for a draw. */
  function RandInt(a: int, b: int, draw: nat): (r: int)
    requires a <= b
    ensures a <= r <= b
  {
    a + draw % (b - a + 1)
  }

  /** `f"{first} {last}"` */
  function NameKey(first: string, last: string): string {
    first + " " + last
  }

  /** `f"{first.lower()}.{last.lower()}@example.com"` */
  function Email(first: string, last: string): string {
    Lower(first) + "." + Lower(last) + "@example.com"
  }


  /** `f"{first} {last}"` of a drawn name. */
  function Key(p: Name): string {
    NameKey(p.0, p.1)
  }

  /** The keys of some names. */
  function Keys(ps: seq<Name>): set<string>
    decreases |ps|
  {
    if ps == [] then {} else Keys(ps[..|ps| - 1]) + {Key(ps[|ps| - 1])}
  }

  lemma KeysSnoc(ps: seq<Name>, p: Name)
    ensures Keys(ps + [p]) == Keys(ps) + {Key(p)}
  {
    assert (ps + [p])[..|ps|] == ps;
  }

  lemma {:induction false} KeyInKeys(ps: seq<Name>, i: nat)
    requires i < |ps|
    ensures Key(ps[i]) in Keys(ps)
    decreases |ps|
  {
    if i < |ps| - 1 {
      var init := ps[..|ps| - 1];
      assert init[i] == ps[i];
      KeyInKeys(init, i);
    }
  }

  /** The keys among the first `n` name draws. */
  function KeySet(names: nat -> Name, n: nat): set<string> {
    if n == 0 then {} else KeySet(names, n - 1) + {Key(names(n - 1))}
  }

  /** The names taken on during the first `n` name draws, in order: a draw
      whose key was seen before is skipped. */
  function Unique(names: nat -> Name, n: nat): seq<Name> {
    if n == 0 then []
    else
      var prev := Unique(names, n - 1);
      if Key(names(n - 1)) in Keys(prev) then prev else prev + [names(n - 1)]
  }

  /** One more name draw: skipped when its key was seen, taken on
      otherwise. */
  lemma UniqueStep(names: nat -> Name, n: nat)
    ensures Key(names(n)) in Keys(Unique(names, n)) ==> Unique(names, n + 1) == Unique(names, n)
    ensures Key(names(n)) !in Keys(Unique(names, n)) ==> Unique(names, n + 1) == Unique(names, n) + [names(n)]
  {
  }

  /** More draws never take on fewer names. */
  lemma {:induction false} UniqueGrows(names: nat -> Name, m: nat, n: nat)
    requires m <= n
    ensures |Unique(names, m)| <= |Unique(names, n)|
    decreases n - m
  {
    if m < n {
      UniqueGrows(names, m, n - 1);
      UniqueStep(names, n - 1);
    }
  }

  /** The keys taken on are exactly the keys drawn so far. */
  lemma {:induction false} UniqueKeys(names: nat -> Name, n: nat)
    ensures Keys(Unique(names, n)) == KeySet(names, n)
  {
    if n > 0 {
      UniqueKeys(names, n - 1);
      var prev := Unique(names, n - 1);
      if Key(names(n - 1)) !in Keys(prev) {
        KeysSnoc(prev, names(n - 1));
      }
    }
  }

  /** No two of the names have the same key. */
  predicate Distinct(ps: seq<Name>) {
    forall i, j :: 0 <= i < j < |ps| ==> Key(ps[i]) != Key(ps[j])
  }

  /** No two names taken on have the same key. */
  lemma {:induction false} UniqueDistinct(names: nat -> Name, n: nat)
    ensures Distinct(Unique(names, n))
  {
    if n > 0 {
      UniqueDistinct(names, n - 1);
      var prev := Unique(names, n - 1);
      var p := names(n - 1);
      if Key(p) !in Keys(prev) {
        var ps := prev + [p];
        assert Unique(names, n) == ps;
        forall i, j | 0 <= i < j < |ps|
          ensures Key(ps[i]) != Key(ps[j])
        {
          assert ps[i] == prev[i];
          if j == |prev| {
            assert ps[j] == p;
            KeyInKeys(prev, i);
          } else {
            assert ps[j] == prev[j];
          }
        }
      } else {
        assert Unique(names, n) == prev;
      }
    }
  }

  /** Each of the names is among the first `n` draws. */
  predicate FromDraws(names: nat -> Name, n: nat, ps: seq<Name>) {
    forall i :: 0 <= i < |ps| ==> exists j :: 0 <= j < n && names(j) == ps[i]
  }

  /** Every name taken on was drawn. */
  lemma {:induction false} UniqueFromDraws(names: nat -> Name, n: nat)
    ensures FromDraws(names, n, Unique(names, n))
  {
    if n > 0 {
      UniqueFromDraws(names, n - 1);
      var prev := Unique(names, n - 1);
      var p := names(n - 1);
      var ps := if Key(p) in Keys(prev) then prev else prev + [p];
      assert Unique(names, n) == ps;
      forall i | 0 <= i < |ps|
        ensures exists j :: 0 <= j < n && names(j) == ps[i]
      {
        if i < |prev| {
          assert ps[i] == prev[i];
          var j :| 0 <= j < n - 1 && names(j) == prev[i];
          assert names(j) == ps[i];
        } else {
          assert names(n - 1) == ps[i];
        }
      }
    }
  }

  /** A draw whose key was already drawn adds nobody. */
  lemma DuplicateSkipped(names: nat -> Name, n: nat)
    requires Key(names(n)) in KeySet(names, n)
    ensures Unique(names, n + 1) == Unique(names, n)
  {
    UniqueKeys(names, n);
  }

  /** The `c`-th employee taken on (from 0), named `first last`: the
      e-mail made from the name, the `randint` draws `2c` and `2c + 1` for
      department and role (`randint(1, len(departments))`,
      `randint(1, len(roles))`), the Faker date draw `c` for the hire
      date. */
  function Recruit(d: Draws, c: nat, p: Name): Employee {
    Employee(p.0, p.1, Email(p.0, p.1),
             RandInt(1, |Departments|, d.ints(2 * c)),
             RandInt(1, |Roles|, d.ints(2 * c + 1)),
             d.fakeDates(c))
  }

  /** The employee rows for the names taken on, in order. */
  function Staff(d: Draws, ps: seq<Name>): (r: seq<Employee>)
    ensures |r| == |ps|
  {
    seq(|ps|, i requires 0 <= i < |ps| => Recruit(d, i, ps[i]))
  }

  /** `employee_data` after the first `n` name draws. */
  function Hire(d: Draws, n: nat): seq<Employee> {
    Staff(d, Unique(d.names, n))
  }

  /** Every employee carries the e-mail made from their name and
      department and role ids that exist (1 to 8); the `i`-th has the
      `i`-th Faker hire date. */
  lemma HireFields(d: Draws, n: nat, i: nat)
    requires i < |Hire(d, n)|
    ensures var e := Hire(d, n)[i];
      && e.email == Email(e.firstName, e.lastName)
      && 1 <= e.departmentId <= |Departments| && 1 <= e.roleId <= |Roles|
      && e.hireDate == d.fakeDates(i)
  {
  }

  /** Every employee's name is one of the draws, and no two employees
      share a `"first last"` key. */
  lemma HireNames(d: Draws, n: nat)
    ensures forall i :: 0 <= i < |Hire(d, n)| ==>
      exists j :: 0 <= j < n && d.names(j) == (Hire(d, n)[i].firstName, Hire(d, n)[i].lastName)
    ensures forall i, j :: 0 <= i < j < |Hire(d, n)| ==>
      NameKey(Hire(d, n)[i].firstName, Hire(d, n)[i].lastName) != NameKey(Hire(d, n)[j].firstName, Hire(d, n)[j].lastName)
  {
    UniqueFromDraws(d.names, n);
    UniqueDistinct(d.names, n);
    var ps := Unique(d.names, n);
    var emps := Hire(d, n);
    forall i | 0 <= i < |emps|
      ensures exists j :: 0 <= j < n && d.names(j) == (emps[i].firstName, emps[i].lastName)
    {
      var j :| 0 <= j < n && d.names(j) == ps[i];
      assert (emps[i].firstName, emps[i].lastName) == ps[i];
    }
    forall i, j | 0 <= i < j < |emps|
      ensures NameKey(emps[i].firstName, emps[i].lastName) != NameKey(emps[j].firstName, emps[j].lastName)
    {
      assert Key(ps[i]) != Key(ps[j]);
    }
  }

  lemma StaffSnoc(d: Draws, ps: seq<Name>, p: Name)
    ensures Staff(d, ps + [p]) == Staff(d, ps) + [Recruit(d, |ps|, p)]
  {
    var r := Staff(d, ps + [p]);
    assert forall i :: 0 <= i < |ps| ==> r[i] == Staff(d, ps)[i];
  }

  /** One pass of the employee loop: a draw whose key was seen adds no
      row; any other adds the row of the next employee and its key. */
  lemma HireStep(d: Draws, n: nat)
    ensures |Hire(d, n)| == |Unique(d.names, n)|
    ensures KeySet(d.names, n + 1) == KeySet(d.names, n) + {Key(d.names(n))}
    ensures Key(d.names(n)) in KeySet(d.names, n) ==> Hire(d, n + 1) == Hire(d, n)
    ensures Key(d.names(n)) !in KeySet(d.names, n) ==>
      Hire(d, n + 1) == Hire(d, n) + [Recruit(d, |Hire(d, n)|, d.names(n))]
  {
    UniqueKeys(d.names, n);
    UniqueStep(d.names, n);
    StaffSnoc(d, Unique(d.names, n), d.names(n));
  }

  /** Fewer than 500 names were taken on after each of the first `n` draw
      counts. */
  predicate Short(d: Draws, n: nat) {
    n == 0 || (Short(d, n - 1) && |Hire(d, n - 1)| < EmployeeCount)
  }

  lemma ShortStep(d: Draws, n: nat)
    requires Short(d, n) && |Hire(d, n)| < EmployeeCount
    ensures Short(d, n + 1)
  {
  }

  /** After each draw count before `n`, fewer than 500 names were taken on. */
  lemma {:induction false} ShortBelow(d: Draws, n: nat, m: nat)
    requires Short(d, n) && m < n
    ensures |Hire(d, m)| < EmployeeCount
    decreases n
  {
    if m < n - 1 {
      ShortBelow(d, n - 1, m);
    }
  }

  /** While fewer than 500 names are taken on, the bound is not reached. */
  lemma BoundAhead(d: Draws, drawn: nat, bound: nat)
    requires drawn <= bound && |Hire(d, drawn)| < EmployeeCount <= |Hire(d, bound)|
    ensures drawn < bound
  {
  }

  /** One pass of the employee loop: draw a name, skip it when its key
      was seen, otherwise record the key and append the employee's row. */
  method DrawEmployee(d: Draws, drawn: nat, employees: seq<Employee>, uniqueNames: set<string>)
    returns (employees': seq<Employee>, uniqueNames': set<string>)
    requires employees == Hire(d, drawn) && uniqueNames == KeySet(d.names, drawn)
    ensures employees' == Hire(d, drawn + 1) && uniqueNames' == KeySet(d.names, drawn + 1)
    ensures |employees'| <= |employees| + 1
  {
    ghost var p := d.names(drawn);
    var first := d.names(drawn).0;
    var last := d.names(drawn).1;
    var nameKey := NameKey(first, last);
    HireStep(d, drawn);
    assert nameKey == Key(p) && (first, last) == p;
    if nameKey in uniqueNames {
      assert uniqueNames == uniqueNames + {nameKey};
      return employees, uniqueNames;
    }
    uniqueNames' := uniqueNames + {nameKey};
    var email := Email(first, last);
    var deptId := RandInt(1, |Departments|, d.ints(2 * |employees|));
    var roleId := RandInt(1, |Roles|, d.ints(2 * |employees| + 1));
    var hireDate := d.fakeDates(|employees|);
    employees' := employees + [Employee(first, last, email, deptId, roleId, hireDate)];
  }

  /** The `while len(employee_data) < 500` loop. `bound` is a number of
      name draws among which 500 distinct keys occur (the loop does not
      end otherwise); `drawn` is how many name draws it took. It stops at the
      first draw count that yields 500 distinct names (`Short`, `ShortBelow`). */
  method GenerateEmployees(d: Draws, ghost bound: nat) returns (employees: seq<Employee>, drawn: nat)
    requires |Unique(d.names, bound)| >= EmployeeCount
    ensures employees == Hire(d, drawn) && |employees| == EmployeeCount
    ensures drawn <= bound
    ensures Short(d, drawn)
  {
    var uniqueNames: set<string> := {};
    employees := [];
    drawn := 0;
    HireStep(d, bound);
    while |employees| < EmployeeCount
      invariant drawn <= bound && |employees| <= EmployeeCount
      invariant employees == Hire(d, drawn) && uniqueNames == KeySet(d.names, drawn)
      invariant Short(d, drawn)
      decreases bound - drawn
    {
      BoundAhead(d, drawn, bound);
      ShortStep(d, drawn);
      employees, uniqueNames := DrawEmployee(d, drawn, employees, uniqueNames);
      drawn := drawn + 1;
    }
  }

  /** A row of `salary_data`. */
  datatype Salary = Salary(employeeId: int, salary: int, effectiveFrom: string)

  /** The salary loop: employee ids 1 to 500, one salary each, taken from
      the `randint` draws from `intStart` and the Faker dates from
      `dateStart` on. */
  method GenerateSalaries(d: Draws, intStart: nat, dateStart: nat) returns (rows: seq<Salary>)
    ensures |rows| == EmployeeCount
    ensures forall i :: 0 <= i < |rows| ==>
      && rows[i].employeeId == i + 1
      && MinSalary <= rows[i].salary <= MaxSalary
      && rows[i].salary == RandInt(MinSalary, MaxSalary, d.ints(intStart + i))
      && rows[i].effectiveFrom == d.fakeDates(dateStart + i)
  {
    rows := [];
    for empId := 1 to EmployeeCount + 1
      invariant |rows| == empId - 1
      invariant forall i :: 0 <= i < |rows| ==>
        && rows[i].employeeId == i + 1
        && MinSalary <= rows[i].salary <= MaxSalary
        && rows[i].salary == RandInt(MinSalary, MaxSalary, d.ints(intStart + i))
        && rows[i].effectiveFrom == d.fakeDates(dateStart + i)
    {
      var salary := RandInt(MinSalary, MaxSalary, d.ints(intStart + empId - 1));
      var effectiveFrom := d.fakeDates(dateStart + empId - 1);
      rows := rows + [Salary(empId, salary, effectiveFrom)];
    }
  }

  /** One of `status_choices`. */
  datatype Status = Present | Absent | Remote | Leave

  const StatusChoices: seq<Status> := [Present, Absent, Remote, Leave]
  const StatusWeights: seq<int> := [85, 5, 5, 5]

  /** `itertools.accumulate(weights)` */
  function Accumulate(weights: seq<int>): (r: seq<int>)
    ensures |r| == |weights|
    decreases |weights|
  {
    if weights == [] then []
    else
      var init := Accumulate(weights[..|weights| - 1]);
      init + [(if init == [] then 0 else init[|init| - 1]) + weights[|weights| - 1]]
  }

  /** `bisect.bisect_right(a, x, lo, hi)` on an ascending `a`: the first
      index in `[lo, hi)` whose entry exceeds `x`, or `hi`. */
  function BisectRight(a: seq<int>, x: real, lo: nat, hi: nat): (r: nat)
    requires lo <= hi <= |a|
    ensures lo <= r <= hi
    decreases hi - lo
  {
    if lo == hi then lo
    else if x < a[lo] as real then lo
    else BisectRight(a, x, lo + 1, hi)
  }

  /** `random.choices(population, weights, k=1)[0]` for the draw `u`
      of `random.random()`. */
  function Choice<T>(population: seq<T>, weights: seq<int>, u: real): T
    requires 0 < |population| == |weights|
  {
    var cum := Accumulate(weights);
    var total := cum[|cum| - 1] as real;
    population[BisectRight(cum, u * total, 0, |population| - 1)]
  }

  /** With weights 85, 5, 5, 5 a draw `u` in `[0, 1)` is Present below
      0.85, Absent below 0.90, Remote below 0.95 and Leave above. */
  lemma StatusBuckets(u: real)
    requires 0.0 <= u < 1.0
    ensures var s := Choice(StatusChoices, StatusWeights, u);
      && (s == Present <==> u < 0.85)
      && (s == Absent <==> 0.85 <= u < 0.90)
      && (s == Remote <==> 0.90 <= u < 0.95)
      && (s == Leave <==> 0.95 <= u)
  {
    var w := StatusWeights;
    assert w[..1][..0] == [] && w[..2][..1] == w[..1] && w[..3][..2] == w[..2] && w[..4][..3] == w[..3];
    assert Accumulate(w[..1]) == [85];
    assert Accumulate(w[..2]) == [85, 90];
    assert Accumulate(w[..3]) == [85, 90, 95];
    assert w[..4] == w;
    assert Accumulate(w) == [85, 90, 95, 100];
  }

  /** An attendance row. */
  datatype Attendance = Attendance(employeeId: int, date: Date, status: Status)

  /** `(end_date - start_date).days + 1` with `end_date = datetime.now()`
      on the day `today`: the days from 2025-01-01 to today inclusive; a
      clock before 2025 gives no days. */
  function DayCount(today: Date): nat
    requires Valid(today)
  {
    if Before(today, AttendanceStart) then 0 else |DatesFrom(AttendanceStart, today)| + 1
  }

  /** The last day of the range is today. */
  lemma LastDayIsToday(today: Date)
    requires Valid(today) && !Before(today, AttendanceStart)
    ensures DateAfter(AttendanceStart, DayCount(today) - 1) == today
  {
    DatesFromReach(AttendanceStart, today);
  }

  /** Walking from `cur` through the loop's dates ends at `end`. */
  lemma {:induction false} DatesFromReach(cur: Date, end: Date)
    requires Valid(cur) && Valid(end) && !Before(end, cur)
    ensures DateAfter(cur, |DatesFrom(cur, end)|) == end
    decreases end.year - cur.year, 12 - cur.month, 31 - cur.day
  {
    if Before(cur, end) {
      NextDayIsNext(cur, end);
      DatesFromReach(NextDay(cur), end);
      DateAfterShift(cur, |DatesFrom(NextDay(cur), end)|);
    }
  }

  /** `n` days after the next day is `n + 1` days after. */
  lemma {:induction false} DateAfterShift(d: Date, n: nat)
    requires Valid(d)
    ensures DateAfter(NextDay(d), n) == DateAfter(d, n + 1)
  {
    if n > 0 {
      DateAfterShift(d, n - 1);
    }
  }

  /** The rows of employee `e + 1` (`e` counted from 0): one per day, the
      `i`-th on the `i`-th day, with the status of draw `e * days + i`. */
  function EmployeeBlock(e: nat, days: nat, units: nat -> real): (r: seq<Attendance>)
    ensures |r| == days
  {
    seq(days, i requires 0 <= i < days =>
      Attendance(e + 1, DateAfter(AttendanceStart, i), Choice(StatusChoices, StatusWeights, units(e * days + i))))
  }

  /** The rows of the first `count` employees, employee after employee. */
  function AllBlocks(count: nat, days: nat, units: nat -> real): (r: seq<Attendance>)
    ensures |r| == count * days
  {
    if count == 0 then []
    else
      assert count * days == (count - 1) * days + days;
      AllBlocks(count - 1, days, units) + EmployeeBlock(count - 1, days, units)
  }

  /** One more day of employee `e + 1`. */
  lemma BlockStep(e: nat, days: nat, units: nat -> real, i: nat)
    requires i < days
    ensures EmployeeBlock(e, days, units)[..i + 1] == EmployeeBlock(e, days, units)[..i] + [EmployeeBlock(e, days, units)[i]]
    ensures EmployeeBlock(e, days, units)[i]
      == Attendance(e + 1, DateAfter(AttendanceStart, i), Choice(StatusChoices, StatusWeights, units(e * days + i)))
  {
  }

  /** The attendance loops: employee ids 1 to 500, and for each the
      days of the range in order. */
  method GenerateAttendance(days: nat, units: nat -> real) returns (records: seq<Attendance>)
    ensures records == AllBlocks(EmployeeCount, days, units)
  {
    records := [];
    for empId := 1 to EmployeeCount + 1
      invariant records == AllBlocks(empId - 1, days, units)
    {
      ghost var done := records;
      for i := 0 to days
        invariant records == done + EmployeeBlock(empId - 1, days, units)[..i]
      {
        ghost var block := EmployeeBlock(empId - 1, days, units);
        BlockStep(empId - 1, days, units, i);
        var currentDate := DateAfter(AttendanceStart, i);
        assert |records| == (empId - 1) * days + i;
        var status := Choice(StatusChoices, StatusWeights, units(|records|));
        assert Attendance(empId, currentDate, status) == block[i];
        AppendAssoc(done, block[..i], [block[i]]);
        records := records + [Attendance(empId, currentDate, status)];
      }
      assert EmployeeBlock(empId - 1, days, units)[..days] == EmployeeBlock(empId - 1, days, units);
    }
  }

  /** Consecutive rows of one employee are on consecutive days, starting
      on 2025-01-01. */
  lemma ConsecutiveDays(e: nat, days: nat, units: nat -> real, i: nat)
    requires i + 1 < days
    ensures var b := EmployeeBlock(e, days, units);
      b[0].date == AttendanceStart && b[i + 1].date == NextDay(b[i].date)
  {
  }

  /** The slices `records[i:i + 10000]` for `i` in `range(0, len, 10000)`,
      joined back together. */
  function Flatten<T>(batches: seq<seq<T>>): seq<T>
    decreases |batches|
  {
    if batches == [] then [] else Flatten(batches[..|batches| - 1]) + batches[|batches| - 1]
  }

  function Min(a: int, b: int): int {
    if a <= b then a else b
  }

  /** Batch `j` is the slice `records[j * 10000 : (j + 1) * 10000]`, and
      it starts inside the records. */
  ghost predicate Slices<T>(records: seq<T>, batches: seq<seq<T>>) {
    forall j :: 0 <= j < |batches| ==>
      j * ChunkSize < |records| && batches[j] == records[j * ChunkSize .. Min(j * ChunkSize + ChunkSize, |records|)]
  }

  lemma SlicesSnoc<T>(records: seq<T>, batches: seq<seq<T>>, batch: seq<T>)
    requires Slices(records, batches)
    requires |batches| * ChunkSize < |records|
    requires batch == records[|batches| * ChunkSize .. Min(|batches| * ChunkSize + ChunkSize, |records|)]
    ensures Slices(records, batches + [batch])
  {
    var b := batches + [batch];
    forall j | 0 <= j < |b|
      ensures j * ChunkSize < |records| && b[j] == records[j * ChunkSize .. Min(j * ChunkSize + ChunkSize, |records|)]
    {
      if j < |batches| {
        assert b[j] == batches[j];
      }
    }
  }

  lemma FlattenSnoc<T>(batches: seq<seq<T>>, batch: seq<T>)
    ensures Flatten(batches + [batch]) == Flatten(batches) + batch
  {
    assert (batches + [batch])[..|batches|] == batches;
  }

  /** `b` slices of 10000 cover `n` records with the last one non-empty
      exactly when `b` is `ceil(n / 10000)`. */
  lemma BatchCount(n: nat, b: nat)
    requires n <= b * ChunkSize
    requires b == 0 || (b - 1) * ChunkSize < n
    ensures b == (n + ChunkSize - 1) / ChunkSize
  {
  }

  /** The chunked insert: the batches are the consecutive 10000-row slices
      of the records, there are `ceil(len / 10000)` of them, and together
      they are the records in order. */
  method ChunkedInsert<T>(records: seq<T>) returns (batches: seq<seq<T>>)
    ensures |batches| == (|records| + ChunkSize - 1) / ChunkSize
    ensures Slices(records, batches)
    ensures Flatten(batches) == records
  {
    batches := [];
    var i := 0;
    while i < |records|
      invariant i == |batches| * ChunkSize
      invariant batches == [] || i - ChunkSize < |records|
      invariant Slices(records, batches)
      invariant Flatten(batches) == records[..Min(i, |records|)]
    {
      var hi := Min(i + ChunkSize, |records|);
      var batch := records[i..hi];
      assert records[..hi] == records[..i] + batch;
      FlattenSnoc(batches, batch);
      SlicesSnoc(records, batches, batch);
      batches := batches + [batch];
      i := i + ChunkSize;
    }
    assert records[..|records|] == records;
    BatchCount(|records|, |batches|);
  }

  /** Every batch holds between 1 and 10000 rows, all but the last exactly
      10000. */
  lemma BatchSizes<T>(records: seq<T>, batches: seq<seq<T>>)
    requires Slices(records, batches)
    requires |batches| == (|records| + ChunkSize - 1) / ChunkSize
    ensures forall j :: 0 <= j < |batches| ==> 0 < |batches[j]| <= ChunkSize
    ensures forall j :: 0 <= j < |batches| - 1 ==> |batches[j]| == ChunkSize
  {
    forall j | 0 <= j < |batches| - 1 ensures |batches[j]| == ChunkSize {
      assert (j + 1) * ChunkSize < |records|;
    }
  }
}
