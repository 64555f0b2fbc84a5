/** `verificar_limite_ferias`: may `employee` be away from `start` to `end`
    without some business day already holding `maxSim` vacations of other
    employees? The check reads the `ferias` table and the configured maximum;
    both are passed in here as values. */
module LimitCheck {
  import opened Calendar
  import opened Records

  function Max(a: int, b: int): (m: int)
    ensures a <= m && b <= m && (m == a || m == b)
  {
    if a < b then b else a
  }

  function Min(a: int, b: int): (m: int)
    ensures m <= a && m <= b && (m == a || m == b)
  {
    if a < b then a else b
  }

  /** SQL `x BETWEEN lo AND hi`: inclusive at both ends. */
  predicate Between(x: Date, lo: Date, hi: Date) {
    lo <= x <= hi
  }

  /** The four-way test of the conflict query: an endpoint of one range lies inside the other. */
  function FourWayOverlap(v: Vacation, start: Date, end: Date): (b: bool)
    ensures v.start <= v.end && start <= end ==> (b <==> v.start <= end && start <= v.end)
  {
    Between(v.start, start, end) || Between(v.end, start, end) ||
    Between(start, v.start, v.end) || Between(end, v.start, v.end)
  }

  /** The whole WHERE clause of the conflict query: a row of another employee that overlaps. */
  function Selected(v: Vacation, start: Date, end: Date, employee: EmployeeId): (b: bool)
    ensures b ==> v.employee != employee
    ensures v.start <= v.end && start <= end ==> (b <==> v.employee != employee && v.start <= end && start <= v.end)
  {
    v.employee != employee && FourWayOverlap(v, start, end)
  }

  /** For well-formed ranges the four-way test holds exactly when the two ranges share a date. */
  lemma FourWayIsOverlap(v: Vacation, start: Date, end: Date)
    requires v.start <= v.end && start <= end
    ensures FourWayOverlap(v, start, end) <==> exists d :: Between(d, v.start, v.end) && Between(d, start, end)
  {
    if v.start <= end && start <= v.end {
      var d := Max(v.start, start);
      assert Between(d, v.start, v.end) && Between(d, start, end);
    }
  }

  /** The rows the conflict query returns, in table order. */
  function Conflicting(table: seq<Vacation>, start: Date, end: Date, employee: EmployeeId): (conflicts: seq<Vacation>)
    ensures forall v :: v in conflicts <==> v in table && Selected(v, start, end, employee)
    ensures forall v :: multiset(conflicts)[v] == if Selected(v, start, end, employee) then multiset(table)[v] else 0
    ensures |conflicts| <= |table|
  {
    if table == [] then []
    else
      var last := table[|table| - 1];
      assert table == table[..|table| - 1] + [last];
      Conflicting(table[..|table| - 1], start, end, employee) + (if Selected(last, start, end, employee) then [last] else [])
  }

  /** The dates of the `calendario` rows built from `conflicts`, one per business
      day of each row's intersection with [start, end]; every row stands for one person. */
  function CalendarEntries(conflicts: seq<Vacation>, start: Date, end: Date): (dates: seq<Date>)
    ensures forall d :: d in dates ==> Between(d, start, end) && IsBusinessDay(d)
  {
    if conflicts == [] then []
    else
      var last := conflicts[|conflicts| - 1];
      CalendarEntries(conflicts[..|conflicts| - 1], start, end) + BusinessDayRange(Max(last.start, start), Min(last.end, end))
  }

  /** How many rows of employees other than `employee` include date `d`. */
  function CoverCount(table: seq<Vacation>, employee: EmployeeId, d: Date): nat {
    if table == [] then 0
    else
      var last := table[|table| - 1];
      CoverCount(table[..|table| - 1], employee, d) +
      (if last.employee != employee && Between(d, last.start, last.end) then 1 else 0)
  }

  /** The occupancy the check sees on `d`: other employees' rows covering it when
      `d` is a business day of the candidate range, and nothing otherwise. */
  function Occupancy(table: seq<Vacation>, employee: EmployeeId, start: Date, end: Date, d: Date): nat {
    if Between(d, start, end) && IsBusinessDay(d) then CoverCount(table, employee, d) else 0
  }

  /** A day the check flags: it appears among the `calendario` dates and its sum reaches the maximum. */
  predicate Violated(table: seq<Vacation>, maxSim: int, start: Date, end: Date, employee: EmployeeId, d: Date) {
    var n := Occupancy(table, employee, start, end, d);
    n > 0 && n >= maxSim
  }

  /** The first flagged day in [from, end], found by walking the dates upwards. */
  function FirstViolationFrom(table: seq<Vacation>, maxSim: int, start: Date, end: Date, employee: EmployeeId, from: Date): (r: Option<Date>)
    ensures r.Some? ==> from <= r.value <= end && Violated(table, maxSim, start, end, employee, r.value)
    ensures forall d :: from <= d <= end && (r.None? || d < r.value) ==> !Violated(table, maxSim, start, end, employee, d)
    decreases end - from
  {
    if end < from then None
    else if Violated(table, maxSim, start, end, employee, from) then Some(from)
    else FirstViolationFrom(table, maxSim, start, end, employee, from + 1)
  }

  /** What the check answers: `None` to accept, `Some(d)` to reject at the earliest flagged day `d`. */
  function EarliestViolation(table: seq<Vacation>, maxSim: int, start: Date, end: Date, employee: EmployeeId): (r: Option<Date>)
    ensures r.Some? ==> Violated(table, maxSim, start, end, employee, r.value)
    ensures forall d :: (r.None? || d < r.value) ==> !Violated(table, maxSim, start, end, employee, d)
  {
    FirstViolationFrom(table, maxSim, start, end, employee, start)
  }

  /** Each conflicting row adds exactly 1 to every business day of its
      intersection with the candidate range, and 0 to every other day; a row
      the query does not select adds nothing, and neither does one it selects
      on a day outside the intersection. */
  lemma ConflictAddsOnePerSharedBusinessDay(v: Vacation, start: Date, end: Date, employee: EmployeeId, d: Date)
    ensures (if Selected(v, start, end, employee) then multiset(BusinessDayRange(Max(v.start, start), Min(v.end, end)))[d] else 0)
         == (if v.employee != employee && Between(d, v.start, v.end) && Between(d, start, end) && IsBusinessDay(d) then 1 else 0)
  {
    EnumeratedOnce(Max(v.start, start), Min(v.end, end), d);
  }

  /** Grouping the `calendario` rows by date and summing gives the occupancy of every date. */
  lemma {:induction false} CalendarMatchesOccupancy(table: seq<Vacation>, start: Date, end: Date, employee: EmployeeId, d: Date)
    ensures multiset(CalendarEntries(Conflicting(table, start, end, employee), start, end))[d]
         == Occupancy(table, employee, start, end, d)
  {
    if table != [] {
      var prefix, last := table[..|table| - 1], table[|table| - 1];
      CalendarMatchesOccupancy(prefix, start, end, employee, d);
      ConflictAddsOnePerSharedBusinessDay(last, start, end, employee, d);
      var before := Conflicting(prefix, start, end, employee);
      if Selected(last, start, end, employee) {
        var after := before + [last];
        assert after[..|after| - 1] == before;
        assert CalendarEntries(after, start, end)
            == CalendarEntries(before, start, end) + BusinessDayRange(Max(last.start, start), Min(last.end, end));
      } else {
        assert Conflicting(table, start, end, employee) == before;
      }
    }
  }

  /** With a maximum of at least 1, a day is flagged exactly when it is a
      business day of the candidate range already covered by `maxSim` or more
      rows of other employees. */
  lemma ViolatedIff(table: seq<Vacation>, maxSim: int, start: Date, end: Date, employee: EmployeeId, d: Date)
    requires maxSim >= 1
    ensures Violated(table, maxSim, start, end, employee, d)
        <==> Between(d, start, end) && IsBusinessDay(d) && CoverCount(table, employee, d) >= maxSim
  {
  }

  /** `dias_problema.index[0]`: among the grouped dates, the smallest whose sum
      reaches the maximum (`groupby` returns the dates sorted). */
  method FirstFlagged(calendar: seq<Date>, counts: map<Date, nat>, maxSim: int) returns (first: Option<Date>)
    requires forall d :: d in counts ==> d in calendar
    ensures first.Some? ==> first.value in counts && counts[first.value] >= maxSim
    ensures first.Some? ==> forall d :: d in counts && counts[d] >= maxSim ==> first.value <= d
    ensures first.None? ==> forall d :: d in counts ==> counts[d] < maxSim
  {
    first := None;
    var k := 0;
    while k < |calendar|
      invariant 0 <= k <= |calendar|
      invariant first.Some? ==> first.value in counts && counts[first.value] >= maxSim
      invariant first.Some? ==> forall i :: 0 <= i < k && calendar[i] in counts && counts[calendar[i]] >= maxSim ==> first.value <= calendar[i]
      invariant first.None? ==> forall i :: 0 <= i < k && calendar[i] in counts ==> counts[calendar[i]] < maxSim
    {
      var d := calendar[k];
      if d in counts && counts[d] >= maxSim && (first.None? || d < first.value) {
        first := Some(d);
      }
      k := k + 1;
    }
  }

  /** The nested loops that fill `calendario`: one entry per business day of each
      conflicting row's intersection with [start, end]. */
  method BuildCalendar(conflicts: seq<Vacation>, start: Date, end: Date) returns (calendar: seq<Date>)
    ensures calendar == CalendarEntries(conflicts, start, end)
  {
    calendar := [];
    var i := 0;
    while i < |conflicts|
      invariant 0 <= i <= |conflicts|
      invariant calendar == CalendarEntries(conflicts[..i], start, end)
    {
      var v := conflicts[i];
      var days := BusinessDayRange(Max(v.start, start), Min(v.end, end));
      var j := 0;
      while j < |days|
        invariant 0 <= j <= |days|
        invariant calendar == CalendarEntries(conflicts[..i], start, end) + days[..j]
      {
        calendar := calendar + [days[j]];
        j := j + 1;
      }
      assert conflicts[..i + 1][..i] == conflicts[..i];
      i := i + 1;
    }
    assert conflicts[..|conflicts|] == conflicts;
  }

  /** `calendario.groupby('Data').sum()`: every date that occurs, with how often it occurs. */
  method CountByDay(calendar: seq<Date>) returns (counts: map<Date, nat>)
    ensures forall d :: d in counts <==> d in calendar
    ensures forall d :: d in counts ==> counts[d] == multiset(calendar)[d]
  {
    counts := map[];
    var k := 0;
    while k < |calendar|
      invariant 0 <= k <= |calendar|
      invariant forall d :: d in counts <==> d in calendar[..k]
      invariant forall d :: d in counts ==> counts[d] == multiset(calendar[..k])[d]
    {
      var d := calendar[k];
      counts := counts[d := if d in counts then counts[d] + 1 else 1];
      assert calendar[..k + 1] == calendar[..k] + [d];
      k := k + 1;
    }
    assert calendar[..|calendar|] == calendar;
  }

  /** The check: accept with `(true, None)`, or reject with `(false, Some(d))` at the
      earliest date `d` whose count reaches the maximum. */
  method CheckLimit(table: seq<Vacation>, maxSim: int, start: Date, end: Date, employee: EmployeeId)
    returns (ok: bool, day: Option<Date>)
    ensures ok <==> day.None?
    ensures day == EarliestViolation(table, maxSim, start, end, employee)
  {
    var conflicts := Conflicting(table, start, end, employee);
    var calendar := BuildCalendar(conflicts, start, end);
    var counts := CountByDay(calendar);
    day := FirstFlagged(calendar, counts, maxSim);
    ok := day.None?;

    forall d ensures (d in counts && counts[d] >= maxSim) <==> Violated(table, maxSim, start, end, employee, d) {
      CalendarMatchesOccupancy(table, start, end, employee, d);
    }
    EarliestIsUnique(table, maxSim, start, end, employee, day);
  }

  /** Only one answer is the earliest flagged day: whatever finds it, the upward walk agrees. */
  lemma EarliestIsUnique(table: seq<Vacation>, maxSim: int, start: Date, end: Date, employee: EmployeeId, first: Option<Date>)
    requires first.Some? ==> Violated(table, maxSim, start, end, employee, first.value)
    requires first.Some? ==> forall d :: Violated(table, maxSim, start, end, employee, d) ==> first.value <= d
    requires first.None? ==> forall d :: !Violated(table, maxSim, start, end, employee, d)
    ensures first == EarliestViolation(table, maxSim, start, end, employee)
  {
    var expected := EarliestViolation(table, maxSim, start, end, employee);
    if expected.Some? && first.Some? {
      assert first.value <= expected.value;
    }
  }

  /** With a maximum of at least 1, the check rejects exactly when some business
      day of the candidate range is already covered by `maxSim` or more rows of
      other employees, and the day it reports is the first such day. */
  lemma RejectsExactlyWhenSomeDayIsFull(table: seq<Vacation>, maxSim: int, start: Date, end: Date, employee: EmployeeId)
    requires maxSim >= 1
    ensures EarliestViolation(table, maxSim, start, end, employee).Some?
        <==> exists d :: Between(d, start, end) && IsBusinessDay(d) && CoverCount(table, employee, d) >= maxSim
    ensures EarliestViolation(table, maxSim, start, end, employee).Some? ==>
              var first := EarliestViolation(table, maxSim, start, end, employee).value;
              Between(first, start, end) && IsBusinessDay(first) && CoverCount(table, employee, first) >= maxSim &&
              forall d :: start <= d < first && IsBusinessDay(d) ==> CoverCount(table, employee, d) < maxSim
  {
    var r := EarliestViolation(table, maxSim, start, end, employee);
    forall d ensures Violated(table, maxSim, start, end, employee, d)
                <==> Between(d, start, end) && IsBusinessDay(d) && CoverCount(table, employee, d) >= maxSim {
      ViolatedIff(table, maxSim, start, end, employee, d);
    }
    if r.Some? {
      assert Violated(table, maxSim, start, end, employee, r.value);
    }
  }

  /** When the conflict query returns no rows the check accepts. */
  lemma NoConflictsAccepted(table: seq<Vacation>, maxSim: int, start: Date, end: Date, employee: EmployeeId)
    requires Conflicting(table, start, end, employee) == []
    ensures EarliestViolation(table, maxSim, start, end, employee) == None
  {
    forall d ensures !Violated(table, maxSim, start, end, employee, d) {
      CalendarMatchesOccupancy(table, start, end, employee, d);
    }
  }

  /** A candidate range without a business day (a Saturday-Sunday weekend, say) is always accepted. */
  lemma WeekendOnlyAccepted(table: seq<Vacation>, maxSim: int, start: Date, end: Date, employee: EmployeeId)
    requires BusinessDays(start, end) == 0
    ensures EarliestViolation(table, maxSim, start, end, employee) == None
  {
    assert BusinessDayRange(start, end) == [];
    forall d ensures !Violated(table, maxSim, start, end, employee, d) {
      assert d !in BusinessDayRange(start, end);
    }
  }

  /** The table without the rows of `employee`. */
  function RowsOfOthers(table: seq<Vacation>, employee: EmployeeId): (others: seq<Vacation>)
    ensures forall v :: v in others <==> v in table && v.employee != employee
    ensures forall v :: multiset(others)[v] == if v.employee != employee then multiset(table)[v] else 0
  {
    if table == [] then []
    else
      var last := table[|table| - 1];
      assert table == table[..|table| - 1] + [last];
      RowsOfOthers(table[..|table| - 1], employee) + (if last.employee != employee then [last] else [])
  }

  lemma {:induction false} OwnRowsNotCovered(table: seq<Vacation>, employee: EmployeeId, d: Date)
    ensures CoverCount(RowsOfOthers(table, employee), employee, d) == CoverCount(table, employee, d)
  {
    if table != [] {
      var prefix, last := table[..|table| - 1], table[|table| - 1];
      OwnRowsNotCovered(prefix, employee, d);
      var before := RowsOfOthers(prefix, employee);
      if last.employee != employee {
        var others := before + [last];
        assert RowsOfOthers(table, employee) == others;
        assert others[..|others| - 1] == before;
        assert CoverCount(others, employee, d) == CoverCount(before, employee, d) + (if Between(d, last.start, last.end) then 1 else 0);
      } else {
        assert RowsOfOthers(table, employee) == before;
      }
    }
  }

  /** The rows of the employee asking never count: removing them all changes nothing. */
  lemma OwnRowsIgnored(table: seq<Vacation>, maxSim: int, start: Date, end: Date, employee: EmployeeId)
    ensures EarliestViolation(RowsOfOthers(table, employee), maxSim, start, end, employee)
         == EarliestViolation(table, maxSim, start, end, employee)
  {
    var others := RowsOfOthers(table, employee);
    forall d ensures Violated(others, maxSim, start, end, employee, d) == Violated(table, maxSim, start, end, employee, d) {
      OwnRowsNotCovered(table, employee, d);
    }
    EarliestIsUnique(table, maxSim, start, end, employee, EarliestViolation(others, maxSim, start, end, employee));
  }

  /** The distinct employees with a row covering `d`. */
  function OnLeave(table: seq<Vacation>, d: Date): set<EmployeeId> {
    if table == [] then {}
    else
      var last := table[|table| - 1];
      OnLeave(table[..|table| - 1], d) + (if Between(d, last.start, last.end) then {last.employee} else {})
  }

  /** No business day has more than `maxSim` distinct employees away. */
  ghost predicate WithinLimit(table: seq<Vacation>, maxSim: int) {
    forall d :: IsBusinessDay(d) ==> |OnLeave(table, d)| <= maxSim
  }

  /** Counting rows never undercounts people: distinct other employees away on
      `d` are at most the other employees' rows covering `d`. */
  lemma {:induction false} PeopleAtMostRows(table: seq<Vacation>, employee: EmployeeId, d: Date)
    ensures |OnLeave(table, d) - {employee}| <= CoverCount(table, employee, d)
  {
    if table != [] {
      var prefix, last := table[..|table| - 1], table[|table| - 1];
      PeopleAtMostRows(prefix, employee, d);
      var added := if Between(d, last.start, last.end) then {last.employee} else {};
      assert OnLeave(table, d) - {employee} == (OnLeave(prefix, d) - {employee}) + (added - {employee});
    }
  }

  /** Accepting a booking keeps every business day within the limit, counted in
      distinct employees: the rows of others on a day of the new range are
      fewer than the maximum, and the new row adds one person at most. */
  lemma AcceptedBookingKeepsLimit(table: seq<Vacation>, maxSim: int, start: Date, end: Date, employee: EmployeeId, days: int)
    requires maxSim >= 1
    requires WithinLimit(table, maxSim)
    requires EarliestViolation(table, maxSim, start, end, employee) == None
    ensures WithinLimit(table + [Vacation(employee, start, end, days)], maxSim)
  {
    var booked := table + [Vacation(employee, start, end, days)];
    assert booked[..|booked| - 1] == table;
    forall d | IsBusinessDay(d) ensures |OnLeave(booked, d)| <= maxSim {
      if Between(d, start, end) {
        PeopleAtMostRows(table, employee, d);
        assert !Violated(table, maxSim, start, end, employee, d);
        assert OnLeave(booked, d) <= (OnLeave(table, d) - {employee}) + {employee};
      }
    }
  }
}
