/** The employee table: one row per employee holding a name, an annual package,
    one absence count per month and free-text remarks. Rows are identified by
    their position, which shifts down when an earlier row is deleted. */
module Records {
  import opened Calendar
  import opened Salary

  datatype Option<T> = None | Some(value: T)

  /** The twelve absence cells of a row, in calendar order (cell k belongs to `Months[k]`). */
  type Absences = s: seq<Absence> | |s| == 12 witness NoAbsences()

  function NoAbsences(): (s: seq<Absence>)
    ensures |s| == 12
    ensures forall k :: 0 <= k < |s| ==> s[k] == Days(0)
  {
    seq(12, _ => Days(0))
  }

  datatype Employee = Employee(name: string, annualPackage: real, absences: Absences, remarks: string)

  /** The name of the stored column (and of the update request key) for a month's absences. */
  function AbsentColumn(month: string): string
  {
    month + "_Absent"
  }

  /** The columns of the data file, in order. */
  function TableColumns(): (cols: seq<string>)
    ensures |cols| == 15
  {
    ["Name", "Annual_Package"] + seq(12, k requires 0 <= k < 12 => AbsentColumn(Months[k])) + ["Remarks"]
  }

  /** The row an add request creates: the given name and package, zero absences
      in every month, empty remarks. */
  function NewEmployee(name: string, annualPackage: real): (e: Employee)
    ensures e.name == name && e.annualPackage == annualPackage
    ensures forall k: Month :: e.absences[k] == Days(0)
    ensures e.remarks == ""
  {
    Employee(name, annualPackage, NoAbsences(), "")
  }

  /** The fields an update request may carry. `absent` is keyed by the request
      keys `<Month>_Absent`; any other key in it is ignored. */
  datatype EmployeePatch = EmployeePatch(
    name: Option<string>,
    annualPackage: Option<real>,
    absent: map<string, int>,
    remarks: Option<string>)

  /** Fields of `e` overwritten by those the patch supplies. */
  function Patched(e: Employee, p: EmployeePatch): Employee
  {
    Employee(
      if p.name.Some? then p.name.value else e.name,
      if p.annualPackage.Some? then p.annualPackage.value else e.annualPackage,
      seq(12, k requires 0 <= k < 12 =>
        if AbsentColumn(Months[k]) in p.absent then Days(p.absent[AbsentColumn(Months[k])]) else e.absences[k]),
      if p.remarks.Some? then p.remarks.value else e.remarks)
  }

  const EmptyPatch := EmployeePatch(None, None, map[], None)

  /** A supplied field takes the supplied value; every field the patch leaves out keeps its value. */
  lemma PatchedFields(e: Employee, p: EmployeePatch)
    ensures Patched(e, p).name == (if p.name.Some? then p.name.value else e.name)
    ensures Patched(e, p).annualPackage == (if p.annualPackage.Some? then p.annualPackage.value else e.annualPackage)
    ensures Patched(e, p).remarks == (if p.remarks.Some? then p.remarks.value else e.remarks)
    ensures forall k: Month :: AbsentColumn(Months[k]) in p.absent ==> Patched(e, p).absences[k] == Days(p.absent[AbsentColumn(Months[k])])
    ensures forall k: Month :: AbsentColumn(Months[k]) !in p.absent ==> Patched(e, p).absences[k] == e.absences[k]
  {
  }

  /** A request that supplies nothing changes nothing. */
  lemma EmptyPatchIsIdentity(e: Employee)
    ensures Patched(e, EmptyPatch) == e
  {
  }

  /** Applying the same update twice is the same as applying it once. */
  lemma PatchIdempotent(e: Employee, p: EmployeePatch)
    ensures Patched(Patched(e, p), p) == Patched(e, p)
  {
  }

  /** Renaming changes the name and nothing else. */
  lemma NameOnlyPatch(e: Employee, name: string)
    ensures Patched(e, EmptyPatch.(name := Some(name))) == e.(name := name)
  {
  }

  /** Keys that name no month are ignored: only the `<Month>_Absent` entries matter. */
  lemma PatchIgnoresUnknownKeys(e: Employee, p: EmployeePatch, key: string, v: int)
    requires forall k: Month :: key != AbsentColumn(Months[k])
    ensures Patched(e, p.(absent := p.absent[key := v])) == Patched(e, p)
  {
  }

  datatype Outcome = Success | NotFound

  /** The employee table. `rows` is the table as loaded from the data file. */
  class EmployeeTable {
    var rows: seq<Employee>

    constructor (loaded: seq<Employee>)
      ensures rows == loaded
    {
      rows := loaded;
    }

    /** Appends a new employee with default absences and remarks. */
    method Add(name: string, annualPackage: real)
      modifies this
      ensures rows == old(rows) + [NewEmployee(name, annualPackage)]
    {
      var newRow := NewEmployee(name, annualPackage);
      rows := rows + [newRow];
    }

    /** Removes the row at `index`; later rows move down one place. An index
        outside the table reports NotFound and leaves it as it was. */
    method Delete(index: int) returns (outcome: Outcome)
      modifies this
      ensures outcome == (if 0 <= index < |old(rows)| then Success else NotFound)
      ensures outcome == NotFound ==> rows == old(rows)
      ensures outcome == Success ==> |rows| == |old(rows)| - 1
      ensures outcome == Success ==> forall j :: 0 <= j < index ==> rows[j] == old(rows)[j]
      ensures outcome == Success ==> forall j :: index <= j < |rows| ==> rows[j] == old(rows)[j + 1]
    {
      if 0 <= index < |rows| {
        rows := rows[..index] + rows[index + 1..];
        return Success;
      }
      return NotFound;
    }

    /** Writes the fields the patch supplies into the row at `index`, one cell
        at a time. An index outside the table reports NotFound and leaves it as it was. */
    method Update(index: int, patch: EmployeePatch) returns (outcome: Outcome)
      modifies this
      ensures outcome == (if 0 <= index < |old(rows)| then Success else NotFound)
      ensures outcome == NotFound ==> rows == old(rows)
      ensures outcome == Success ==> rows == old(rows)[index := Patched(old(rows)[index], patch)]
    {
      if !(0 <= index < |rows|) {
        return NotFound;
      }
      ghost var before := rows[index];
      if patch.name.Some? {
        rows := rows[index := rows[index].(name := patch.name.value)];
      }
      if patch.annualPackage.Some? {
        rows := rows[index := rows[index].(annualPackage := patch.annualPackage.value)];
      }
      var k := 0;
      while k < 12
        invariant 0 <= k <= 12
        invariant |rows| == |old(rows)|
        invariant forall j :: 0 <= j < |rows| && j != index ==> rows[j] == old(rows)[j]
        invariant rows[index].name == Patched(before, patch).name
        invariant rows[index].annualPackage == Patched(before, patch).annualPackage
        invariant rows[index].remarks == before.remarks
        invariant forall j :: 0 <= j < 12 ==> rows[index].absences[j] == (if j < k then Patched(before, patch).absences[j] else before.absences[j])
      {
        var key := AbsentColumn(Months[k]);
        if key in patch.absent {
          rows := rows[index := rows[index].(absences := rows[index].absences[k := Days(patch.absent[key])])];
        }
        k := k + 1;
      }
      if patch.remarks.Some? {
        rows := rows[index := rows[index].(remarks := patch.remarks.value)];
      }
      assert rows[index] == Patched(before, patch);
      return Success;
    }
  }
}
