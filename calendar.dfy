/** Calendar dates as day numbers, and the Monday-to-Friday business-day
    calendar (no holidays) that `calcular_dias_uteis` and the limit check use. */
module Calendar {

  /** A calendar date: the number of days since 1970-01-01 (negative before it).
      With ISO `YYYY-MM-DD` text, as the tables store dates, comparing the text
      and comparing these numbers agree. */
  type Date = int

  /** Day of the week, 0 = Monday .. 6 = Sunday (1970-01-01 was a Thursday). */
  function Weekday(d: Date): (w: nat)
    ensures w < 7
  {
    (d + 3) % 7
  }

  /** Monday to Friday. */
  predicate IsBusinessDay(d: Date) {
    Weekday(d) < 5
  }

  /** The business days of the inclusive range [start, end]:
      what `pandas.bdate_range(start=start, end=end)` enumerates (empty when end < start). */
  function BusinessDayRange(start: Date, end: Date): (days: seq<Date>)
    ensures forall d :: d in days <==> start <= d <= end && IsBusinessDay(d)
    decreases end - start
  {
    if end < start then []
    else BusinessDayRange(start, end - 1) + (if IsBusinessDay(end) then [end] else [])
  }

  /** `calcular_dias_uteis(inicio, fim)`: the length of that enumeration. */
  function BusinessDays(start: Date, end: Date): (n: nat)
    ensures end < start ==> n == 0
    ensures start <= end ==> n <= end - start + 1
  {
    BusinessDaysBound(start, end);
    |BusinessDayRange(start, end)|
  }

  lemma {:induction false} BusinessDaysBound(start: Date, end: Date)
    ensures |BusinessDayRange(start, end)| <= if end < start then 0 else end - start + 1
    decreases end - start
  {
    if start <= end {
      BusinessDaysBound(start, end - 1);
    }
  }

  /** Each business day of the range is enumerated exactly once, and no other date is. */
  lemma {:induction false} EnumeratedOnce(start: Date, end: Date, d: Date)
    ensures multiset(BusinessDayRange(start, end))[d] == if start <= d <= end && IsBusinessDay(d) then 1 else 0
    decreases end - start
  {
    if start <= end {
      EnumeratedOnce(start, end - 1, d);
    }
  }

  /** The business days of [start, end] as a set. */
  ghost function BusinessDaySet(start: Date, end: Date): set<Date> {
    set d | start <= d <= end && IsBusinessDay(d)
  }

  /** The count is the number of Monday-to-Friday dates in the inclusive range. */
  lemma {:induction false} BusinessDaysIsCardinality(start: Date, end: Date)
    ensures BusinessDays(start, end) == |BusinessDaySet(start, end)|
    decreases end - start
  {
    if end < start {
      assert BusinessDaySet(start, end) == {};
    } else {
      BusinessDaysIsCardinality(start, end - 1);
      var last := if IsBusinessDay(end) then {end} else {};
      assert BusinessDaySet(start, end) == BusinessDaySet(start, end - 1) + last;
      assert end !in BusinessDaySet(start, end - 1);
    }
  }

  /** A single date counts 1 when it is a weekday and 0 on Saturday or Sunday. */
  lemma SingleDay(d: Date)
    ensures BusinessDays(d, d) == Counted(d)
  {
    assert BusinessDayRange(d, d - 1) == [];
  }

  /** Appending the next date to the range adds one exactly when it is a weekday. */
  lemma StepRight(start: Date, end: Date)
    requires start <= end
    ensures BusinessDays(start, end) == BusinessDays(start, end - 1) + Counted(end)
  {
  }

  /** Counting is additive over adjacent ranges. */
  lemma {:induction false} Split(start: Date, mid: Date, end: Date)
    requires start - 1 <= mid <= end
    ensures BusinessDays(start, end) == BusinessDays(start, mid) + BusinessDays(mid + 1, end)
    decreases end - mid
  {
    if mid < end {
      Split(start, mid, end - 1);
      StepRight(start, end);
      StepRight(mid + 1, end);
    } else {
      assert BusinessDayRange(mid + 1, end) == [];
    }
  }

  /** Any seven consecutive days (in particular a Monday-to-Sunday week) hold five business days. */
  lemma {:induction false} SevenDays(start: Date)
    ensures BusinessDays(start, start + 6) == 5
  {
    StepRight(start, start + 6);
    StepRight(start, start + 5);
    StepRight(start, start + 4);
    StepRight(start, start + 3);
    StepRight(start, start + 2);
    StepRight(start, start + 1);
    SingleDay(start);
    TwoWeekendDays(start);
  }

  /** 1 for a business day, 0 for Saturday and Sunday. */
  function Counted(d: Date): nat {
    if IsBusinessDay(d) then 1 else 0
  }

  /** Whichever weekday they start on, seven consecutive dates include exactly two weekend days. */
  lemma TwoWeekendDays(start: Date)
    ensures Counted(start) + Counted(start + 1) + Counted(start + 2) + Counted(start + 3)
          + Counted(start + 4) + Counted(start + 5) + Counted(start + 6) == 5
  {
    var w := Weekday(start);
    WeekdayShift(start, 1);
    WeekdayShift(start, 2);
    WeekdayShift(start, 3);
    WeekdayShift(start, 4);
    WeekdayShift(start, 5);
    WeekdayShift(start, 6);
    if w == 0 {
    } else if w == 1 {
    } else if w == 2 {
    } else if w == 3 {
    } else if w == 4 {
    } else if w == 5 {
    } else {
    }
  }

  /** Moving k days ahead moves the weekday k places, wrapping after Sunday. */
  lemma WeekdayShift(d: Date, k: int)
    ensures Weekday(d + k) == (Weekday(d) + k) % 7
  {
  }

  /** A Monday-to-Friday range counts five. */
  lemma {:induction false} MondayToFriday(monday: Date)
    requires Weekday(monday) == 0
    ensures BusinessDays(monday, monday + 4) == 5
  {
    StepRight(monday, monday + 4);
    StepRight(monday, monday + 3);
    StepRight(monday, monday + 2);
    StepRight(monday, monday + 1);
    SingleDay(monday);
    assert Weekday(monday + 4) == 4;
  }

  /** k whole weeks hold 5k business days. */
  lemma {:induction false} WholeWeeks(start: Date, k: nat)
    ensures BusinessDays(start, start + 7 * k - 1) == 5 * k
  {
    if k == 0 {
      assert BusinessDayRange(start, start - 1) == [];
    } else {
      WholeWeeks(start, k - 1);
      Split(start, start + 7 * (k - 1) - 1, start + 7 * k - 1);
      SevenDays(start + 7 * (k - 1));
    }
  }
}
