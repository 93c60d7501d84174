/** The calendar of the payroll year: the twelve month names in calendar order,
    their three-letter abbreviations, and the working-days configuration that
    the salary computation reads (one count of payable days per month). */
module Calendar {

  /** The months, in the order every report iterates them. */
  const Months: seq<string> := ["January", "February", "March", "April", "May", "June",
                                "July", "August", "September", "October", "November", "December"]

  /** A position in `Months`. */
  type Month = k: int | 0 <= k < 12

  /** The first three letters of a month name, as Python's `name[:3]` takes them
      (a shorter name is returned whole). */
  function Abbrev(name: string): string
  {
    if |name| >= 3 then name[..3] else name
  }

  lemma MonthsDistinct()
    ensures |Months| == 12
    ensures forall j, k :: 0 <= j < k < 12 ==> Months[j] != Months[k]
  {
  }

  /** The abbreviations written out by hand: the independent reference that
      `AbbrevOfMonths` checks `Abbrev` against. */
  const Abbreviations: seq<string> := ["Jan", "Feb", "Mar", "Apr", "May", "Jun",
                                       "Jul", "Aug", "Sep", "Oct", "Nov", "Dec"]

  lemma AbbrevOfMonths()
    ensures forall k: Month :: Abbrev(Months[k]) == Abbreviations[k]
  {
  }

  /** No two months share an abbreviation, so the per-month export columns never collide. */
  lemma AbbreviationsDistinct()
    ensures forall j, k :: 0 <= j < k < 12 ==> Abbrev(Months[j]) != Abbrev(Months[k])
  {
    AbbrevOfMonths();
  }

  /** Working days per month in 2025, weekends excluded. */
  const DefaultWorkingDays: map<string, int> :=
    map["January" := 23, "February" := 22, "March" := 23, "April" := 22,
        "May" := 23, "June" := 22, "July" := 23, "August" := 23,
        "September" := 22, "October" := 23, "November" := 22, "December" := 23]

  /** A configuration the salary computation can read: every month has a count. */
  predicate Complete(days: map<string, int>)
  {
    forall k: Month :: Months[k] in days
  }

  lemma DefaultsComplete()
    ensures Complete(DefaultWorkingDays)
    ensures DefaultWorkingDays.Keys == set m | m in Months
    ensures forall m :: m in DefaultWorkingDays ==> 22 <= DefaultWorkingDays[m] <= 23
  {
  }

  /** The configuration after a partial update: every month already configured
      that the update names takes the new count; every other month keeps its
      count; keys that are not configured months are dropped. */
  function Overwrite(days: map<string, int>, update: map<string, int>): (r: map<string, int>)
    ensures r.Keys == days.Keys
    ensures forall m :: m in days && m in update ==> r[m] == update[m]
    ensures forall m :: m in days && m !in update ==> r[m] == days[m]
  {
    map m | m in days :: if m in update then update[m] else days[m]
  }

  /** Unknown keys have no effect: the update behaves as its restriction to the configured months. */
  lemma OverwriteIgnoresUnknownKeys(days: map<string, int>, update: map<string, int>)
    ensures Overwrite(days, update) == Overwrite(days, map m | m in update && m in days :: update[m])
  {
  }

  /** A complete configuration stays complete whatever the update holds. */
  lemma OverwriteKeepsComplete(days: map<string, int>, update: map<string, int>)
    requires Complete(days)
    ensures Complete(Overwrite(days, update))
  {
  }

  /** Setting February to 20 on the defaults changes February and nothing else. */
  lemma FebruaryUpdate()
    ensures Overwrite(DefaultWorkingDays, map["February" := 20]) == DefaultWorkingDays["February" := 20]
  {
  }

  /** The process-wide working-days table. */
  class WorkingDayCalendar {
    var days: map<string, int>

    constructor ()
      ensures days == DefaultWorkingDays
    {
      days := DefaultWorkingDays;
    }

    /** Overwrites the count of every month present in `update`, one key at a
        time; a key that is not a configured month is skipped. */
    method Update(update: map<string, int>)
      modifies this
      ensures days == Overwrite(old(days), update)
    {
      var pending := update.Keys;
      while pending != {}
        invariant pending <= update.Keys
        invariant days == Overwrite(old(days), update - pending)
        decreases pending
      {
        var month :| month in pending;
        if month in days {
          days := days[month := update[month]];
        }
        pending := pending - {month};
      }
      assert update - pending == update;
    }
  }
}
