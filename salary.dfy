/** The salary formula: a monthly salary is the daily rate (the annual package
    over the fixed divisor 271) times the days actually worked that month,
    rounded to the cent. Money is an exact `real`; the rounding to two decimals
    is round-half-to-even on the exact value, the rule Python's `round` follows. */
module Salary {

  /** An absence count as stored in the table: a whole number of days, or an
      empty (NaN) cell. */
  datatype Absence = NaN | Days(count: int)

  /** The absence days the formula uses: an empty cell counts as zero. */
  function AbsentDays(a: Absence): int
  {
    match a
    case NaN => 0
    case Days(n) => n
  }

  /** The integer nearest to `y`, ties going to the even neighbour. */
  function RoundHalfEven(y: real): (n: int)
    ensures -0.5 <= n as real - y <= 0.5
    ensures (n as real - y == 0.5 || n as real - y == -0.5) ==> n % 2 == 0
  {
    var f := y.Floor;
    var d := y - f as real;
    if d < 0.5 then f
    else if d > 0.5 then f + 1
    else if f % 2 == 0 then f
    else f + 1
  }

  /** `x` rounded to two decimals, as a whole number of cents. */
  function Cents(x: real): int
  {
    RoundHalfEven(x * 100.0)
  }

  /** `x` rounded to two decimals: a whole number of cents, off by at most half a
      cent, on a tie the even cent, and never negative for a non-negative `x`. */
  function RoundCents(x: real): (r: real)
    ensures (r * 100.0).Floor as real == r * 100.0
    ensures -0.005 <= r - x <= 0.005
    ensures (r - x == 0.005 || r - x == -0.005) ==> (r * 100.0).Floor % 2 == 0
    ensures x >= 0.0 ==> r >= 0.0
  {
    var c := Cents(x);
    assert (c as real / 100.0) * 100.0 == c as real;
    assert (c as real / 100.0) - x == (c as real - x * 100.0) / 100.0;
    c as real / 100.0
  }

  lemma RoundHalfEvenMonotone(x: real, y: real)
    requires x <= y
    ensures RoundHalfEven(x) <= RoundHalfEven(y)
  {
  }

  /** Rounding to the cent preserves order. */
  lemma {:induction false} RoundCentsMonotone(x: real, y: real)
    requires x <= y
    ensures RoundCents(x) <= RoundCents(y)
  {
    RoundHalfEvenMonotone(x * 100.0, y * 100.0);
  }

  /** An amount that already is a whole number of cents is left as it is. */
  lemma RoundCentsOfCents(c: int)
    ensures Cents(c as real / 100.0) == c
    ensures RoundCents(c as real / 100.0) == c as real / 100.0
  {
  }

  /** The days paid in a month: working days less absences, never below zero. */
  function EffectiveDays(workingDays: int, absent: Absence): (d: int)
    ensures d >= 0
    ensures d >= workingDays - AbsentDays(absent)
    ensures d == 0 || d == workingDays - AbsentDays(absent)
  {
    var e := workingDays - AbsentDays(absent);
    if e > 0 then e else 0
  }

  /** The unrounded salary: the daily rate (package / 271) times the effective days. */
  function ExactSalary(annualPackage: real, absent: Absence, workingDays: int): real
  {
    var dailyRate := annualPackage / 271.0;
    dailyRate * EffectiveDays(workingDays, absent) as real
  }

  /** The monthly salary: a whole number of cents within half a cent of
      package / 271 per effective day (the even cent on a tie), non-negative
      for a non-negative package, and zero once absences reach the month's
      working days. */
  function CalculateSalary(annualPackage: real, absent: Absence, workingDays: int): (salary: real)
    ensures (salary * 100.0).Floor as real == salary * 100.0
    ensures -0.005 <= salary - annualPackage * EffectiveDays(workingDays, absent) as real / 271.0 <= 0.005
    ensures var exact := annualPackage * EffectiveDays(workingDays, absent) as real / 271.0;
      (salary - exact == 0.005 || salary - exact == -0.005) ==> (salary * 100.0).Floor % 2 == 0
    ensures annualPackage >= 0.0 ==> salary >= 0.0
    ensures AbsentDays(absent) >= workingDays ==> salary == 0.0
  {
    RoundCents(ExactSalary(annualPackage, absent, workingDays))
  }

  /** An empty absence cell pays the same as zero absences. */
  lemma MissingAbsenceIsZero(annualPackage: real, workingDays: int)
    ensures CalculateSalary(annualPackage, NaN, workingDays) == CalculateSalary(annualPackage, Days(0), workingDays)
  {
    assert EffectiveDays(workingDays, NaN) == EffectiveDays(workingDays, Days(0));
    assert ExactSalary(annualPackage, NaN, workingDays) == ExactSalary(annualPackage, Days(0), workingDays);
  }

  /** More absences never pay more. */
  lemma {:induction false} SalaryAntitoneInAbsences(annualPackage: real, fewer: Absence, more: Absence, workingDays: int)
    requires annualPackage >= 0.0
    requires AbsentDays(fewer) <= AbsentDays(more)
    ensures CalculateSalary(annualPackage, more, workingDays) <= CalculateSalary(annualPackage, fewer, workingDays)
  {
    var dMore, dFewer := EffectiveDays(workingDays, more), EffectiveDays(workingDays, fewer);
    assert (annualPackage / 271.0) * dMore as real <= (annualPackage / 271.0) * dFewer as real;
    RoundCentsMonotone(ExactSalary(annualPackage, more, workingDays), ExactSalary(annualPackage, fewer, workingDays));
  }

  /** A larger package never pays less. */
  lemma {:induction false} SalaryMonotoneInPackage(smaller: real, larger: real, absent: Absence, workingDays: int)
    requires smaller <= larger
    ensures CalculateSalary(smaller, absent, workingDays) <= CalculateSalary(larger, absent, workingDays)
  {
    var d := EffectiveDays(workingDays, absent) as real;
    assert (smaller / 271.0) * d <= (larger / 271.0) * d;
    RoundCentsMonotone(ExactSalary(smaller, absent, workingDays), ExactSalary(larger, absent, workingDays));
  }

  /** A package of 271000 with 23 working days and 3 absences pays 1000 a day
      for 20 days: 20000.00. */
  lemma WorkedExample()
    ensures CalculateSalary(271000.0, Days(3), 23) == 20000.0
  {
  }
}
