/** Calendar dates as day numbers and Monday-to-Sunday weeks.

    A date is the number of days elapsed since Monday 1 January of year 1 in
    the proleptic Gregorian calendar, so day 0 is a Monday and a day `d` is a
    Monday exactly when `d % 7 == 0` (Dafny's `%` never goes negative, so this
    also holds for earlier dates). Time of day is not represented: a weekly
    period depends only on the calendar day. */
module Calendar {
  import opened Options

  type Day = int

  const DaysPerWeek: nat := 7

  predicate IsMonday(d: Day) {
    d % DaysPerWeek == 0
  }

  /** The Monday that starts the Monday-to-Sunday week containing `d`. */
  function WeekStart(d: Day): (m: Day)
    ensures IsMonday(m)
    ensures m <= d < m + DaysPerWeek
  {
    d - d % DaysPerWeek
  }

  /** A week has exactly one start: the only Monday at most six days
      before `d`. */
  lemma WeekStartUnique(d: Day, m: Day)
    ensures WeekStart(d) == m <==> IsMonday(m) && m <= d < m + DaysPerWeek
  {
    if IsMonday(m) && m <= d < m + DaysPerWeek {
      var q := m / DaysPerWeek;
      assert m == q * DaysPerWeek;
      var j := d - m;
      assert d == q * DaysPerWeek + j && 0 <= j < DaysPerWeek;
      assert d % DaysPerWeek == j;
    }
  }

  /** Week start of a possibly missing date; a missing date has no week. */
  function WeekOf(d: Option<Day>): (w: Option<Day>)
    ensures w.Some? <==> d.Some?
    ensures w.Some? ==> IsMonday(w.value) && w.value <= d.value < w.value + DaysPerWeek
  {
    match d
    case None => None
    case Some(day) => Some(WeekStart(day))
  }

  /** Calendar reading of "this date falls in the week starting `monday`". */
  predicate DuringWeek(d: Option<Day>, monday: Day) {
    d.Some? && IsMonday(monday) && monday <= d.value < monday + DaysPerWeek
  }

  /** Comparing a date's week start with a reference Monday is the same as
      asking whether the date lies in the seven days from that Monday; a
      missing date matches no week. */
  lemma WeekOfMatches(d: Option<Day>, monday: Day)
    ensures WeekOf(d) == Some(monday) <==> DuringWeek(d, monday)
  {
    if d.Some? {
      WeekStartUnique(d.value, monday);
    }
  }
}
