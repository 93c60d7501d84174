/** The two tabular exports: the attendance table with readable column headers,
    and the salary table, which is the report laid out as rows with a closing
    "MONTHLY TOTAL" row. */
module Exports {
  import opened Calendar
  import opened Salary
  import opened Records
  import opened Reports

  /** The header of a month's salary column in the salary export. */
  function SalaryColumn(month: string): string
  {
    Abbrev(month) + " Salary (₹)"
  }

  /** The header a month's absence column gets in the attendance export. */
  function AbsentDaysColumn(month: string): string
  {
    Abbrev(month) + " Absent Days"
  }

  /** The column headers of the salary export, in order. */
  function SalaryExportColumns(): (cols: seq<string>)
    ensures |cols| == 15
  {
    ["Employee Name", "Annual Package (₹)"] + seq(12, k requires 0 <= k < 12 => SalaryColumn(Months[k]))
      + ["Total Salary (₹)"]
  }

  lemma {:induction false} SuffixCancel(a: string, b: string, suffix: string)
    requires a + suffix == b + suffix
    ensures a == b
  {
    assert a == (a + suffix)[..|a|];
    assert |a| == |b|;
    assert b == (b + suffix)[..|b|];
  }

  lemma SalaryColumnShape(k: Month)
    ensures |SalaryColumn(Months[k])| == 14
    ensures SalaryColumn(Months[k])[..3] == Abbrev(Months[k])
  {
  }

  /** The fifteen salary export headers are pairwise distinct: no month's column
      overwrites another's, or the name, package or total column. */
  lemma SalaryExportColumnsDistinct()
    ensures forall i, j :: 0 <= i < j < 15 ==> SalaryExportColumns()[i] != SalaryExportColumns()[j]
  {
    var cols := SalaryExportColumns();
    forall i, j | 0 <= i < j < 15
      ensures cols[i] != cols[j]
    {
      if 2 <= i && j < 14 {
        assert cols[i] == SalaryColumn(Months[i - 2]) && cols[j] == SalaryColumn(Months[j - 2]);
        SalaryColumnShape(i - 2);
        SalaryColumnShape(j - 2);
        AbbreviationsDistinct();
      } else if 2 <= i < 14 {
        SalaryColumnShape(i - 2);
      } else if 2 <= j < 14 {
        SalaryColumnShape(j - 2);
      }
    }
  }

  /** The package cell of a salary export row; the totals row leaves it empty. */
  datatype PackageCell = Amount(value: real) | Blank

  /** One row of the salary export. `salaries[k]` is the cell under
      `SalaryColumn(Months[k])`. */
  datatype SalaryRow = SalaryRow(
    employeeName: string,
    annualPackage: PackageCell,
    salaries: seq<real>,
    totalSalary: real)

  /** `table` is the salary export of `rows` under `wd`: one row per employee in
      table order, then exactly one "MONTHLY TOTAL" row with no package, each
      month's total and the sum of the employees' yearly sums, rounded to the cent. */
  predicate IsSalaryExport(table: seq<SalaryRow>, rows: seq<Employee>, wd: map<string, int>)
    requires Complete(wd)
  {
    && |table| == |rows| + 1
    && (forall i :: 0 <= i < |rows| ==>
          table[i] == SalaryRow(rows[i].name, Amount(rows[i].annualPackage),
                                MonthlySalaries(rows[i], wd), RoundCents(EmployeeSum(rows[i], wd, 12))))
    && table[|rows|] == SalaryRow("MONTHLY TOTAL", Blank, RoundedMonthTotals(rows, wd),
                                  RoundCents(SumEmployeeTotals(rows, wd)))
  }

  /** Builds the salary export table. */
  method ExportSalary(rows: seq<Employee>, wd: map<string, int>) returns (table: seq<SalaryRow>)
    requires Complete(wd)
    ensures IsSalaryExport(table, rows, wd)
  {
    table := [];
    var totals: seq<real> := seq(12, _ => 0.0);
    var grandTotal := 0.0;
    var i := 0;
    while i < |rows|
      invariant 0 <= i <= |rows|
      invariant |table| == i
      invariant forall j :: 0 <= j < i ==>
        table[j] == SalaryRow(rows[j].name, Amount(rows[j].annualPackage),
                              MonthlySalaries(rows[j], wd), RoundCents(EmployeeSum(rows[j], wd, 12)))
      invariant |totals| == 12
      invariant forall k: Month :: totals[k] == MonthTotal(rows[..i], k, wd)
      invariant grandTotal == SumEmployeeTotals(rows[..i], wd)
    {
      var row := rows[i];
      var salaries, employeeTotal;
      salaries, employeeTotal, totals := AccumulateMonths(row, wd, totals);
      table := table + [SalaryRow(row.name, Amount(row.annualPackage), salaries, RoundCents(employeeTotal))];
      assert rows[..i + 1] == rows[..i] + [row];
      assert rows[..i + 1][..i] == rows[..i];
      grandTotal := grandTotal + employeeTotal;
      forall k: Month
        ensures totals[k] == MonthTotal(rows[..i + 1], k, wd)
      {
        MonthTotalAppend(rows[..i], row, k, wd);
      }
      i := i + 1;
    }
    assert rows[..i] == rows;
    var monthly := seq(12, k requires 0 <= k < 12 => RoundCents(totals[k]));
    table := table + [SalaryRow("MONTHLY TOTAL", Blank, monthly, RoundCents(grandTotal))];
  }

  /** The export's employee rows carry the report's figures, and its totals row
      carries the report's monthly totals and grand total. */
  lemma ExportAgreesWithReport(table: seq<SalaryRow>, report: SalaryReport, rows: seq<Employee>, wd: map<string, int>)
    requires Complete(wd)
    requires IsSalaryExport(table, rows, wd) && IsSalaryReport(report, rows, wd)
    ensures forall i :: 0 <= i < |rows| ==>
      table[i].employeeName == report.employees[i].name &&
      table[i].annualPackage == Amount(report.employees[i].annualPackage) &&
      table[i].salaries == report.employees[i].monthlySalaries &&
      table[i].totalSalary == report.employees[i].totalSalary
    ensures table[|rows|].salaries == report.monthlyTotals
    ensures table[|rows|].totalSalary == report.grandTotal
  {
    TotalsCommute(rows, wd);
  }

  /** Builds the header row of the attendance export: the data file's columns,
      renamed through the mapping the source builds (readable names for the
      name, package and absence columns; any other column keeps its name). */
  method AttendanceExportHeaders() returns (headers: seq<string>)
    ensures headers == AttendanceExportColumns()
  {
    var mapping: map<string, string> := map["Name" := "Employee Name", "Annual_Package" := "Annual Package (₹)"];
    var k := 0;
    while k < 12
      invariant 0 <= k <= 12
      invariant "Name" in mapping && mapping["Name"] == "Employee Name"
      invariant "Annual_Package" in mapping && mapping["Annual_Package"] == "Annual Package (₹)"
      invariant "Remarks" !in mapping
      invariant forall j :: 0 <= j < k ==>
        AbsentColumn(Months[j]) in mapping && mapping[AbsentColumn(Months[j])] == AbsentDaysColumn(Months[j])
    {
      var month := Months[k];
      AbsentColumnDistinct(k);
      mapping := mapping[AbsentColumn(month) := AbsentDaysColumn(month)];
      k := k + 1;
    }
    var columns := TableColumns();
    headers := seq(|columns|, i requires 0 <= i < |columns| =>
      if columns[i] in mapping then mapping[columns[i]] else columns[i]);
    forall i | 2 <= i < 14
      ensures headers[i] == AbsentDaysColumn(Months[i - 2])
    {
      assert columns[i] == AbsentColumn(Months[i - 2]);
    }
  }

  /** The column headers of the attendance export, in order, as the rename is
      meant to produce them. */
  function AttendanceExportColumns(): (cols: seq<string>)
    ensures |cols| == 15
  {
    ["Employee Name", "Annual Package (₹)"] + seq(12, k requires 0 <= k < 12 => AbsentDaysColumn(Months[k]))
      + ["Remarks"]
  }

  lemma AbsentDaysColumnShape(k: Month)
    ensures |AbsentDaysColumn(Months[k])| == 15
    ensures AbsentDaysColumn(Months[k])[..3] == Abbrev(Months[k])
  {
  }

  /** The fifteen attendance export headers are pairwise distinct, so the rename
      never gives two columns the same header. */
  lemma AttendanceExportColumnsDistinct()
    ensures forall i, j :: 0 <= i < j < 15 ==> AttendanceExportColumns()[i] != AttendanceExportColumns()[j]
  {
    var cols := AttendanceExportColumns();
    forall i, j | 0 <= i < j < 15
      ensures cols[i] != cols[j]
    {
      if 2 <= i && j < 14 {
        assert cols[i] == AbsentDaysColumn(Months[i - 2]) && cols[j] == AbsentDaysColumn(Months[j - 2]);
        AbsentDaysColumnShape(i - 2);
        AbsentDaysColumnShape(j - 2);
        AbbreviationsDistinct();
      } else if 2 <= i < 14 {
        AbsentDaysColumnShape(i - 2);
      } else if 2 <= j < 14 {
        AbsentDaysColumnShape(j - 2);
      }
    }
  }

  /** A month's absence column differs from every other month's and from the
      name, package and remarks columns. */
  lemma AbsentColumnDistinct(k: Month)
    ensures forall j :: 0 <= j < 12 && j != k ==> AbsentColumn(Months[j]) != AbsentColumn(Months[k])
    ensures AbsentColumn(Months[k]) !in {"Name", "Annual_Package", "Remarks"}
  {
    MonthsDistinct();
    forall j | 0 <= j < 12 && j != k
      ensures AbsentColumn(Months[j]) != AbsentColumn(Months[k])
    {
      if AbsentColumn(Months[j]) == AbsentColumn(Months[k]) {
        SuffixCancel(Months[j], Months[k], "_Absent");
      }
    }
    var c := AbsentColumn(Months[k]);
    assert c[|c| - 1] == 't';
  }
}
