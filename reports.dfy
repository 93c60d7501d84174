/** The salary report: every employee's salary for each month and for the year,
    the total paid across employees in each month, and the grand total. The sums
    are defined here once, as functions over the table, and the report and the
    salary export are both proved against them. */
module Reports {
  import opened Calendar
  import opened Salary
  import opened Records

  /** The salary of employee `e` for month `k` under the working-days table `wd`. */
  function MonthlySalary(e: Employee, k: Month, wd: map<string, int>): real
    requires Complete(wd)
  {
    CalculateSalary(e.annualPackage, e.absences[k], wd[Months[k]])
  }

  /** The sum of `e`'s (already rounded) salaries over the first `n` months. */
  function EmployeeSum(e: Employee, wd: map<string, int>, n: nat): real
    requires Complete(wd) && n <= 12
  {
    if n == 0 then 0.0 else EmployeeSum(e, wd, n - 1) + MonthlySalary(e, n - 1, wd)
  }

  /** The sum over all rows of the salary for month `k`. */
  function MonthTotal(rows: seq<Employee>, k: Month, wd: map<string, int>): real
    requires Complete(wd)
  {
    if rows == [] then 0.0
    else MonthTotal(rows[..|rows| - 1], k, wd) + MonthlySalary(rows[|rows| - 1], k, wd)
  }

  /** The sum of the first `n` monthly totals. */
  function SumMonthTotals(rows: seq<Employee>, wd: map<string, int>, n: nat): real
    requires Complete(wd) && n <= 12
  {
    if n == 0 then 0.0 else SumMonthTotals(rows, wd, n - 1) + MonthTotal(rows, n - 1, wd)
  }

  /** The sum over all rows of each employee's yearly sum. */
  function SumEmployeeTotals(rows: seq<Employee>, wd: map<string, int>): real
    requires Complete(wd)
  {
    if rows == [] then 0.0
    else SumEmployeeTotals(rows[..|rows| - 1], wd) + EmployeeSum(rows[|rows| - 1], wd, 12)
  }

  /** Adding a row to the table raises a month's total by that row's salary. */
  lemma MonthTotalAppend(rows: seq<Employee>, e: Employee, k: Month, wd: map<string, int>)
    requires Complete(wd)
    ensures MonthTotal(rows + [e], k, wd) == MonthTotal(rows, k, wd) + MonthlySalary(e, k, wd)
  {
  }

  /** A month's total over two tables laid end to end is the sum of their totals. */
  lemma {:induction false} MonthTotalConcat(a: seq<Employee>, b: seq<Employee>, k: Month, wd: map<string, int>)
    requires Complete(wd)
    ensures MonthTotal(a + b, k, wd) == MonthTotal(a, k, wd) + MonthTotal(b, k, wd)
    decreases |b|
  {
    if b == [] {
      assert a + b == a;
    } else {
      var init, last := b[..|b| - 1], b[|b| - 1];
      assert a + b == (a + init) + [last];
      MonthTotalAppend(a + init, last, k, wd);
      MonthTotalConcat(a, init, k, wd);
      assert MonthTotal(b, k, wd) == MonthTotal(init, k, wd) + MonthlySalary(last, k, wd);
    }
  }

  /** Deleting row `i` lowers a month's total by exactly that row's salary. */
  lemma DeleteLowersMonthTotal(rows: seq<Employee>, i: nat, k: Month, wd: map<string, int>)
    requires Complete(wd) && i < |rows|
    ensures MonthTotal(rows[..i] + rows[i + 1..], k, wd) == MonthTotal(rows, k, wd) - MonthlySalary(rows[i], k, wd)
  {
    assert rows == rows[..i] + [rows[i]] + rows[i + 1..];
    MonthTotalConcat(rows[..i] + [rows[i]], rows[i + 1..], k, wd);
    MonthTotalAppend(rows[..i], rows[i], k, wd);
    MonthTotalConcat(rows[..i], rows[i + 1..], k, wd);
  }

  /** Adding one more row to the table raises the month-by-month sum by that
      employee's yearly sum. */
  lemma {:induction false} SumMonthTotalsAppend(rows: seq<Employee>, e: Employee, wd: map<string, int>, n: nat)
    requires Complete(wd) && n <= 12
    ensures SumMonthTotals(rows + [e], wd, n) == SumMonthTotals(rows, wd, n) + EmployeeSum(e, wd, n)
  {
    if n > 0 {
      SumMonthTotalsAppend(rows, e, wd, n - 1);
      MonthTotalAppend(rows, e, n - 1, wd);
    }
  }

  /** Summing month by month and summing employee by employee give the same
      grand total, so the report and the salary export agree on it. */
  lemma {:induction false} TotalsCommute(rows: seq<Employee>, wd: map<string, int>)
    requires Complete(wd)
    ensures SumMonthTotals(rows, wd, 12) == SumEmployeeTotals(rows, wd)
  {
    if rows == [] {
      EmptyTableTotals(wd, 12);
    } else {
      var init, last := rows[..|rows| - 1], rows[|rows| - 1];
      assert rows == init + [last];
      TotalsCommute(init, wd);
      SumMonthTotalsAppend(init, last, wd, 12);
    }
  }

  /** With no employees, every monthly total and the grand total are zero. */
  lemma {:induction false} EmptyTableTotals(wd: map<string, int>, n: nat)
    requires Complete(wd) && n <= 12
    ensures forall k: Month :: MonthTotal([], k, wd) == 0.0
    ensures SumMonthTotals([], wd, n) == 0.0
  {
    if n > 0 {
      EmptyTableTotals(wd, n - 1);
    }
  }

  /** The sum, in cents, of `e`'s salaries over the first `n` months. */
  function EmployeeCents(e: Employee, wd: map<string, int>, n: nat): int
    requires Complete(wd) && n <= 12
  {
    if n == 0 then 0
    else EmployeeCents(e, wd, n - 1) + Cents(ExactSalary(e.annualPackage, e.absences[n - 1], wd[Months[n - 1]]))
  }

  /** An employee's yearly sum is a whole number of cents, so rounding it to two
      decimals (as the report does) leaves it unchanged. */
  lemma {:induction false} EmployeeSumIsCents(e: Employee, wd: map<string, int>, n: nat)
    requires Complete(wd) && n <= 12
    ensures EmployeeSum(e, wd, n) == EmployeeCents(e, wd, n) as real / 100.0
    ensures RoundCents(EmployeeSum(e, wd, n)) == EmployeeSum(e, wd, n)
  {
    if n > 0 {
      EmployeeSumIsCents(e, wd, n - 1);
    }
    RoundCentsOfCents(EmployeeCents(e, wd, n));
  }

  /** The sum, in cents, of every row's salary for month `k`. */
  function MonthTotalCents(rows: seq<Employee>, k: Month, wd: map<string, int>): int
    requires Complete(wd)
  {
    if rows == [] then 0
    else
      var last := rows[|rows| - 1];
      MonthTotalCents(rows[..|rows| - 1], k, wd) + Cents(ExactSalary(last.annualPackage, last.absences[k], wd[Months[k]]))
  }

  /** A month's total is a whole number of cents, so rounding it to two decimals
      (as the report and the export do) leaves it unchanged. */
  lemma {:induction false} MonthTotalIsCents(rows: seq<Employee>, k: Month, wd: map<string, int>)
    requires Complete(wd)
    ensures MonthTotal(rows, k, wd) == MonthTotalCents(rows, k, wd) as real / 100.0
    ensures RoundCents(MonthTotal(rows, k, wd)) == MonthTotal(rows, k, wd)
  {
    if rows != [] {
      MonthTotalIsCents(rows[..|rows| - 1], k, wd);
    }
    RoundCentsOfCents(MonthTotalCents(rows, k, wd));
  }

  /** The sum, in cents, of the first `n` monthly totals. */
  function SumMonthCents(rows: seq<Employee>, wd: map<string, int>, n: nat): int
    requires Complete(wd) && n <= 12
  {
    if n == 0 then 0 else SumMonthCents(rows, wd, n - 1) + MonthTotalCents(rows, n - 1, wd)
  }

  /** The grand total is a whole number of cents, so its final rounding leaves
      it unchanged; by `TotalsCommute` this holds for either summation order. */
  lemma {:induction false} GrandTotalIsCents(rows: seq<Employee>, wd: map<string, int>, n: nat)
    requires Complete(wd) && n <= 12
    ensures SumMonthTotals(rows, wd, n) == SumMonthCents(rows, wd, n) as real / 100.0
    ensures RoundCents(SumMonthTotals(rows, wd, n)) == SumMonthTotals(rows, wd, n)
  {
    if n > 0 {
      GrandTotalIsCents(rows, wd, n - 1);
      MonthTotalIsCents(rows, n - 1, wd);
    }
    RoundCentsOfCents(SumMonthCents(rows, wd, n));
  }

  /** Every salary is non-negative when every package is. */
  lemma {:induction false} MonthTotalNonNegative(rows: seq<Employee>, k: Month, wd: map<string, int>)
    requires Complete(wd)
    requires forall i :: 0 <= i < |rows| ==> rows[i].annualPackage >= 0.0
    ensures MonthTotal(rows, k, wd) >= 0.0
  {
    if rows != [] {
      MonthTotalNonNegative(rows[..|rows| - 1], k, wd);
    }
  }

  /** `e`'s salary for each month, in calendar order. */
  function MonthlySalaries(e: Employee, wd: map<string, int>): (s: seq<real>)
    requires Complete(wd)
    ensures |s| == 12
  {
    seq(12, k requires 0 <= k < 12 => MonthlySalary(e, k, wd))
  }

  /** Every month's total over the table, rounded to the cent, in calendar order. */
  function RoundedMonthTotals(rows: seq<Employee>, wd: map<string, int>): (s: seq<real>)
    requires Complete(wd)
    ensures |s| == 12
  {
    seq(12, k requires 0 <= k < 12 => RoundCents(MonthTotal(rows, k, wd)))
  }

  /** One employee's line of the report. Per-month figures are kept in calendar
      order: entry k is the figure for `Months[k]`. */
  datatype EmployeeSalary = EmployeeSalary(
    name: string,
    annualPackage: real,
    monthlySalaries: seq<real>,
    totalSalary: real)

  datatype SalaryReport = SalaryReport(
    employees: seq<EmployeeSalary>,
    monthlyTotals: seq<real>,
    grandTotal: real,
    workingDays: map<string, int>)

  /** `report` is the salary report of `rows` under `wd`: one line per row, in
      table order, with the row's name, package, monthly salaries and yearly sum
      rounded to the cent; each month's total across rows and the sum of the
      monthly totals, rounded to the cent; and the working days used. */
  predicate IsSalaryReport(report: SalaryReport, rows: seq<Employee>, wd: map<string, int>)
    requires Complete(wd)
  {
    && |report.employees| == |rows|
    && (forall i :: 0 <= i < |rows| ==>
          report.employees[i] == EmployeeSalary(rows[i].name, rows[i].annualPackage,
                                                MonthlySalaries(rows[i], wd), RoundCents(EmployeeSum(rows[i], wd, 12))))
    && report.monthlyTotals == RoundedMonthTotals(rows, wd)
    && report.grandTotal == RoundCents(SumMonthTotals(rows, wd, 12))
    && report.workingDays == wd
  }

  /** The pass over the twelve months of one row that both the report and the
      salary export make: the row's salary for each month, their sum, and the
      running monthly totals raised by those salaries. */
  method AccumulateMonths(row: Employee, wd: map<string, int>, totals: seq<real>)
    returns (salaries: seq<real>, total: real, newTotals: seq<real>)
    requires Complete(wd) && |totals| == 12
    ensures salaries == MonthlySalaries(row, wd)
    ensures total == EmployeeSum(row, wd, 12)
    ensures |newTotals| == 12
    ensures forall k: Month :: newTotals[k] == totals[k] + MonthlySalary(row, k, wd)
  {
    salaries, total, newTotals := [], 0.0, totals;
    var k := 0;
    while k < 12
      invariant 0 <= k <= 12
      invariant |salaries| == k
      invariant forall j :: 0 <= j < k ==> salaries[j] == MonthlySalary(row, j, wd)
      invariant total == EmployeeSum(row, wd, k)
      invariant |newTotals| == 12
      invariant forall j: Month :: newTotals[j] == totals[j] + (if j < k then MonthlySalary(row, j, wd) else 0.0)
    {
      var salary := CalculateSalary(row.annualPackage, row.absences[k], wd[Months[k]]);
      salaries := salaries + [salary];
      total := total + salary;
      newTotals := newTotals[k := newTotals[k] + salary];
      k := k + 1;
    }
  }

  /** Builds the salary report for the table `rows` under the working days `wd`. */
  method GetSalaryData(rows: seq<Employee>, wd: map<string, int>) returns (report: SalaryReport)
    requires Complete(wd)
    ensures IsSalaryReport(report, rows, wd)
  {
    var employees: seq<EmployeeSalary> := [];
    var totals: seq<real> := seq(12, _ => 0.0);
    var i := 0;
    while i < |rows|
      invariant 0 <= i <= |rows|
      invariant |employees| == i
      invariant forall j :: 0 <= j < i ==>
        employees[j] == EmployeeSalary(rows[j].name, rows[j].annualPackage,
                                       MonthlySalaries(rows[j], wd), RoundCents(EmployeeSum(rows[j], wd, 12)))
      invariant |totals| == 12
      invariant forall k: Month :: totals[k] == MonthTotal(rows[..i], k, wd)
    {
      var row := rows[i];
      var salaries, total;
      salaries, total, totals := AccumulateMonths(row, wd, totals);
      employees := employees + [EmployeeSalary(row.name, row.annualPackage, salaries, RoundCents(total))];
      forall k: Month
        ensures totals[k] == MonthTotal(rows[..i + 1], k, wd)
      {
        assert rows[..i + 1] == rows[..i] + [row];
        MonthTotalAppend(rows[..i], row, k, wd);
      }
      i := i + 1;
    }
    assert rows[..i] == rows;
    var sum := 0.0;
    for k := 0 to 12
      invariant sum == SumMonthTotals(rows, wd, k)
    {
      sum := sum + totals[k];
    }
    var grandTotal := RoundCents(sum);
    var rounded := seq(12, k requires 0 <= k < 12 => RoundCents(totals[k]));
    report := SalaryReport(employees, rounded, grandTotal, wd);
  }

  /** With no employees the report lists nobody and every total is zero. */
  lemma EmptyReport(report: SalaryReport, wd: map<string, int>)
    requires Complete(wd) && IsSalaryReport(report, [], wd)
    ensures report.employees == []
    ensures forall k: Month :: report.monthlyTotals[k] == 0.0
    ensures report.grandTotal == 0.0
  {
    EmptyTableTotals(wd, 12);
    RoundCentsOfCents(0);
  }
}
