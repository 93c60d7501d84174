# Payroll automater: attendance and salary core

A model of the payroll arithmetic and the record operations of a small
attendance-and-salary service (`app.py`). The service keeps a table of
employees (name, annual package, one absence count per month, remarks). It
keeps a per-month working-days table and computes monthly salaries as

    daily_rate     = annual_package / 271
    effective_days = max(0, working_days - absent_days)
    salary         = round(daily_rate * effective_days, 2)

From these it builds a salary report (per-employee monthly salaries and
yearly totals, per-month totals across employees, a grand total) and a
salary export that ends with a "MONTHLY TOTAL" row.

The project has five modules, about one component each:

- `Calendar` (calendar.dfy): the twelve months and their abbreviations. It also holds the
  default working-days table and `WorkingDayCalendar`, the process-wide table
  that the update request overwrites in place.
- `Salary` (salary.dfy): the salary formula on exact `real`s, and two-decimal
  rounding as explicit round-half-to-even at the cent.
- `Records` (records.dfy): the employee row, the data file's column layout and
  `EmployeeTable`, a class over the list of rows with `Add`, `Delete` and
  `Update` (cell-by-cell, as the source writes them).
- `Reports` (reports.dfy): the sums the report is made of, defined once as
  functions, and `GetSalaryData`, the nested accumulation loop, proved
  against them.
- `Exports` (exports.dfy): the salary export, with its totals row, and the
  header row of the attendance export.

Representation choices:

- Money is an exact `real`. Python's `round(x, 2)` is modelled as
  round-half-to-even at the cent on the exact value (`Salary.RoundCents`).
  This does not claim bit-exact agreement with binary floating point.
- A row's twelve absence cells form a sequence indexed by month position, so
  cell k belongs to `Months[k]`. A cell is `Days(n)` or `NaN`, an empty cell.
  A column missing from a loaded file reads as 0 in the source
  (`row.get(..., 0)`). The model treats it the same way, as an empty cell.
- Report and export figures "per month" are also sequences in calendar
  order. The source's dictionaries never have two months collide on a key, so
  nothing is lost by using positions. `Calendar.MonthsDistinct` covers the
  report's dictionaries, keyed by full month names (app.py:119, 135).
  `Calendar.AbbreviationsDistinct` and `Exports.SalaryExportColumnsDistinct`
  cover the export's, keyed by `month[:3]` headers (app.py:221, 232).
  `Exports.AttendanceExportColumnsDistinct` shows that the attendance rename
  (app.py:171-175) never gives two columns the same header.
- An update request is an `EmployeePatch`. Its optional `name`, package and
  `Remarks` fields are set only when the request has them. Absence values are
  keyed by the request keys `<Month>_Absent`, and any other key is ignored.
- Request values are taken as already numeric.

Properties of app.py worth knowing when reading the model:

- Because of rounding, and because a month can pay for 0 days, the salary is
  only non-decreasing in the package, not strictly increasing
  (`SalaryMonotoneInPackage`).
- The report's grand total is the rounded sum of the unrounded monthly
  totals (app.py:142). The export's grand total is the rounded sum of the
  unrounded employee totals (app.py:226 and 233). On exact arithmetic the two
  are equal (`Reports.TotalsCommute`).
- `calculate_salary` does no validation of its own. A non-numeric package
  fails in the division at app.py:46, and a malformed request fails in the
  `float()` or `int()` conversions. Both are outside the model.

## Model

| member | source | states |
|---|---|---|
| Calendar.MonthsDistinct | app.py:19-20 | there are twelve month names and no two are equal |
| Calendar.Abbrev | app.py:173 | defines `month[:3]`: the first three characters, or the whole name when shorter |
| Calendar.AbbrevOfMonths | app.py:173 | the first three letters of each month are Jan, Feb, …, Dec |
| Calendar.AbbreviationsDistinct | app.py:171-173 | no two months share a three-letter abbreviation, so the per-month export columns never collide |
| Calendar.DefaultsComplete | app.py:13-17 | the default table has an entry for exactly the twelve months, each 22 or 23 days |
| Calendar.Overwrite | app.py:160-162 | after an update the configured months are the same; a month the update names takes the new count; every other month keeps its count |
| Calendar.OverwriteIgnoresUnknownKeys | app.py:160-162 | an update behaves exactly as its restriction to the configured months: unknown keys have no effect |
| Calendar.OverwriteKeepsComplete | app.py:160-162 | a table with every month still has every month after any update, so the salary lookup never misses |
| Calendar.FebruaryUpdate | app.py:156-163 | setting February to 20 on the defaults gives the defaults with February 20 and every other month unchanged |
| Calendar.WorkingDayCalendar.constructor | app.py:13-17 | the table starts as the 2025 defaults |
| Calendar.WorkingDayCalendar.Update | app.py:156-163 | the key-by-key loop leaves the table equal to `Overwrite` of the old table |
| Salary.RoundHalfEven | app.py:48 | the result is an integer within 1/2 of the input, and on a tie it is the even neighbour |
| Salary.RoundCents | app.py:48 | two-decimal rounding gives a whole number of cents, moves a value by at most half a cent, takes the even cent on a tie, and keeps a non-negative value non-negative |
| Salary.RoundCentsMonotone | app.py:48 | two-decimal rounding preserves order |
| Salary.RoundCentsOfCents | app.py:46-48 | a whole number of cents is unchanged by the rounding |
| Salary.AbsentDays | app.py:44-45 | defines the absence days the formula uses: an empty (NaN) cell counts as 0 |
| Salary.ExactSalary | app.py:46-47 | defines the unrounded salary: package / 271 times the effective days |
| Salary.EffectiveDays | app.py:47 | effective days are never negative; they are working minus absent days, or 0 when that is not positive |
| Salary.CalculateSalary | app.py:42-48 | the salary is a whole number of cents within half a cent of package/271 per effective day, and on an exact half-cent tie it is the even cent; it is non-negative for a non-negative package; it is 0 once absences reach the working days |
| Salary.MissingAbsenceIsZero | app.py:44-45 | an empty absence cell pays the same as 0 absences |
| Salary.SalaryAntitoneInAbsences | app.py:46-48 | for a non-negative package, more absences never pay more |
| Salary.SalaryMonotoneInPackage | app.py:46-48 | a larger package never pays less |
| Salary.WorkedExample | app.py:46-48 | package 271000, 23 working days and 3 absences pay 20000.00 |
| Records.NoAbsences | app.py:77-78 | twelve absence cells, every one 0 |
| Records.AbsentColumn | app.py:105 | defines the `<Month>_Absent` column name, which is also the update request key |
| Records.TableColumns | app.py:24 | the data file has 15 columns: Name, Annual_Package, the twelve `<Month>_Absent` columns, Remarks |
| Records.NewEmployee | app.py:73-79 | an added row has the given name and package, 0 absences in all twelve months, and empty remarks |
| Records.Patched | app.py:99-109 | defines the row after an update request: supplied fields replaced, the rest kept (its properties are the lemmas below) |
| Records.PatchedFields | app.py:99-109 | each field the request supplies takes the supplied value, and each field it leaves out keeps its old value (name, package, every month's absences, remarks) |
| Records.EmptyPatchIsIdentity | app.py:99-109 | a request that supplies nothing leaves the row unchanged |
| Records.PatchIdempotent | app.py:99-109 | applying the same update twice gives the same row as applying it once |
| Records.NameOnlyPatch | app.py:100-101 | a request with only a name changes the name and nothing else |
| Records.PatchIgnoresUnknownKeys | app.py:104-107 | a key that is no month's `<Month>_Absent` has no effect on the row |
| Records.EmployeeTable.constructor | app.py:27-32 | the table holds the rows as loaded |
| Records.EmployeeTable.Add | app.py:69-83 | the table becomes the old table followed by exactly one new row with default absences and remarks |
| Records.EmployeeTable.Delete | app.py:86-92 | an index in range gives Success: the table is one shorter, earlier rows are unchanged, and each later row moves down one place. Any other index gives NotFound and leaves the table unchanged |
| Records.EmployeeTable.Update | app.py:95-113 | an index in range gives Success: only that row changes, and it becomes the patched row. Any other index gives NotFound and leaves the table unchanged |
| Reports.MonthlySalary | app.py:130-134 | defines an employee's salary for one month under the working-days table |
| Reports.EmployeeSum | app.py:136 | defines the running sum of an employee's rounded monthly salaries |
| Reports.MonthTotal | app.py:137 | defines one month's total across all rows of the table |
| Reports.SumMonthTotals | app.py:142 | defines the sum of the unrounded monthly totals |
| Reports.SumEmployeeTotals | app.py:226 | defines the sum of the unrounded employee totals |
| Reports.IsSalaryReport | app.py:116-150 | defines the report of a table: one line per row, the rounded monthly totals, the rounded grand total and the working days |
| Reports.MonthTotalAppend | app.py:121-137 | one more row raises a month's total by that row's salary |
| Reports.MonthTotalConcat | app.py:121-137 | a month's total over two tables placed end to end is the sum of their totals |
| Reports.DeleteLowersMonthTotal | app.py:88-89 | deleting row i lowers each month's total by exactly that row's salary |
| Reports.SumMonthTotalsAppend | app.py:137-142 | one more row raises the sum of the monthly totals by that employee's yearly sum |
| Reports.TotalsCommute | app.py:222-233 | the export's grand total, summed employee by employee, equals the report's, summed month by month (app.py:142) |
| Reports.EmptyTableTotals | app.py:119-142 | with no rows every monthly total and their sum are 0 |
| Reports.EmployeeSumIsCents | app.py:136-139 | an employee's yearly sum is a whole number of cents, so rounding it changes nothing |
| Reports.MonthTotalIsCents | app.py:143 | a month's total is a whole number of cents, so its rounding changes nothing |
| Reports.GrandTotalIsCents | app.py:142 | the sum of the monthly totals is a whole number of cents, so its rounding changes nothing |
| Reports.MonthTotalNonNegative | app.py:129-137 | with non-negative packages every monthly total is non-negative |
| Reports.MonthlySalaries | app.py:135 | an employee's twelve monthly salaries, in calendar order, the report's `monthly_salaries` |
| Reports.RoundedMonthTotals | app.py:143 | the twelve monthly totals, each rounded to the cent, in calendar order |
| Reports.AccumulateMonths | app.py:129-137 | one pass over the twelve months of a row gives each month's salary, their sum, and the running monthly totals raised by them |
| Reports.GetSalaryData | app.py:116-150 | the report has one line per row in table order (name, package, twelve monthly salaries, yearly sum rounded to the cent), each month's total rounded, the rounded sum of the unrounded monthly totals, and the working days used |
| Reports.EmptyReport | app.py:117-143 | the report of an empty table lists nobody, and every monthly total and the grand total are 0 |
| Exports.SalaryColumn | app.py:221 | defines a month's salary header, `<Mon> Salary (₹)` |
| Exports.AbsentDaysColumn | app.py:173 | defines a month's attendance header, `<Mon> Absent Days` |
| Exports.IsSalaryExport | app.py:201-234 | defines the salary export of a table: one row per employee, then the "MONTHLY TOTAL" row |
| Exports.SalaryExportColumns | app.py:209-225 | the salary export's 15 headers in order: Employee Name, Annual Package (₹), twelve `<Mon> Salary (₹)`, Total Salary (₹) |
| Exports.SalaryColumnShape | app.py:221 | a month's salary header is 14 characters and starts with the month's abbreviation |
| Exports.SalaryExportColumnsDistinct | app.py:209-233 | the 15 salary-export headers are pairwise distinct |
| Exports.ExportSalary | app.py:201-234 | the export has one row per employee in table order, then exactly one "MONTHLY TOTAL" row. That row has an empty package, the rounded monthly totals, and the rounded sum of the employee totals |
| Exports.ExportAgreesWithReport | app.py:225-233 | the export's employee rows carry the report's figures, and its totals row carries the report's monthly totals and grand total |
| Exports.AttendanceExportHeaders | app.py:168-175 | the rename of the data file's columns gives exactly `AttendanceExportColumns`: Employee Name, Annual Package (₹), `<Mon> Absent Days` for each month in order, and Remarks unchanged |
| Exports.AttendanceExportColumns | app.py:171-173 | the attendance export's 15 headers, in order |
| Exports.AbsentDaysColumnShape | app.py:173 | a month's attendance header is 15 characters and starts with the month's abbreviation |
| Exports.AttendanceExportColumnsDistinct | app.py:171-175 | the 15 attendance-export headers are pairwise distinct, so the rename creates no duplicate columns |
| Exports.AbsentColumnDistinct | app.py:172-173 | the twelve `<Month>_Absent` columns are distinct from each other and from Name, Annual_Package and Remarks |

## Left out

- Flask routes, templates, `jsonify`, HTTP status codes and `request.json`: web plumbing. Outcomes are the `Outcome` datatype (Success / NotFound). The "invalid format" 400 replies of the exports are not modelled.
- `load_data`/`save_data` (app.py:27-40) and the CSV/Excel writers: file I/O through pandas. The table is a value handed to `EmployeeTable`'s constructor. The fallback to an empty table on a missing or unreadable file is not modelled.
- `get_employees` (app.py:63-66) is the table's `rows` read as they are. It has no member of its own.
- pandas internals (`concat`, `drop().reset_index`, `df.at`, `iterrows`, `rename`): replaced by sequences of rows. The attendance export assumes that the loaded file has the columns in `TableColumns` order.
- `float()`, `int()` and `str()` coercion of request values (app.py:75, 103, 107, 109, 162): foreign parsing. Values arrive already typed. The failure path is therefore not modelled. `update_working_days` writes the global table one key at a time, so a failing `int(days)` at app.py:162 leaves the months before it already overwritten. `Calendar.WorkingDayCalendar.Update` always completes. `update_employee` cannot fail partway this way, because it saves only after all its writes.
- Salary.CalculateSalary: does not model IEEE-754 division or Python's rounding of binary floats. The results are exact rationals rounded half-to-even at the cent. Because of this, the final rounding of the totals changes nothing here: of an employee's yearly sum (`Reports.EmployeeSumIsCents`), of a monthly total (`Reports.MonthTotalIsCents`) and of the grand total (`Reports.GrandTotalIsCents`, with `Reports.TotalsCommute` for the export's order). With floats, the rounding removes representation error.
- An empty (NaN) annual package cell is not modelled: the package is always a number.
- A `df.at` write of a missing absence column adds that column with empty cells for other rows. That case is not modelled, because every row has all twelve cells.
- The process-wide, unsynchronised nature of the working-days table: it is one object, with no concurrency.
