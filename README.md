# Vacation booking rule of `gestao_ferias.py`, in Dafny

`gestao_ferias.py` is a small Streamlit application. It records employees and
their vacation periods in three SQLite tables: `funcionarios`, `ferias` and a
single `configuracoes` row. The one piece of logic in it is the booking rule.
It has three parts:

- **`calcular_dias_uteis`** counts the Monday-to-Friday days of an inclusive
  date range. It uses `pandas.bdate_range`, which has no holiday calendar.
- **`verificar_limite_ferias`** selects the stored intervals of other
  employees that overlap a candidate range. It uses a four-way `BETWEEN` test.
  It writes one `calendario` entry per business day of each interval's
  intersection with the candidate range. It groups those entries by date and
  sums them. It rejects at the earliest date whose sum reaches
  `max_ferias_simultaneas`.
- **The booking form's submit** rejects a range whose last day is not after
  its first day. Otherwise it counts the business days, runs the check, and
  appends one `ferias` row only when the check accepts.

The model also covers the settings control that rewrites the maximum, and the
per-employee summary of allotted, used and remaining days.

Dates are day numbers counted from 1970-01-01, which was a Thursday.
`Weekday(d) = (d + 3) % 7`, with 0 = Monday, as in Python's `date.weekday()`.
The tables store dates as ISO `YYYY-MM-DD` text. Comparing that text orders
dates the same way as comparing day numbers, so `BETWEEN` becomes integer
comparison.

Modules:

- `Calendar` (calendar.dfy) holds weekdays, the `bdate_range` enumeration
  `BusinessDayRange`, the count `BusinessDays` and its laws.
- `Records` (records.dfy) holds the table rows and `Option`.
- `LimitCheck` (limit_check.dfy) holds the limit check. `CheckLimit` is the
  method. It is built from `BuildCalendar` (the nested loops),
  `CountByDay` (`groupby(...).sum()`) and `FirstFlagged`
  (`dias_problema.index[0]`). It is proved equal to the specification
  function `EarliestViolation`. `EarliestViolation` is defined independently,
  as an upward walk over dates, from the per-day occupancy `Occupancy`. The
  module also holds the lemmas about that specification.
- `VacationStore` (store.dfy) holds the class `Store`. Its fields `employees`,
  `vacations` and `maxSimultaneous` are the three tables. `Submit` and
  `UpdateMaxSimultaneous` change them. The module also holds the summary
  report.
- `Scenarios` (scenarios.dfy) holds concrete bookings in June 2024 and a
  client that books through `Store.Submit`.

Two points about the code's behaviour:

- The code counts intervals, not people. Two overlapping intervals of the
  same other employee fill two places (`Scenarios.RowsCountedNotPeople`). The
  model follows the code. `LimitCheck.AcceptedBookingKeepsLimit` shows that
  this errs on the safe side. An accepted booking never puts more than the
  maximum number of distinct employees away on any business day, provided
  that held before.
- A date is flagged only if it appears in `calendario` and its sum is at
  least the maximum. The stored maximum is always at least 1, and then this
  is just "sum ≥ maximum" (`LimitCheck.ViolatedIff`).

## Model

| member | source | states |
|---|---|---|
| `Calendar.BusinessDayRange` | gestao_ferias.py:69 | the enumeration holds exactly the Monday-to-Friday dates of the inclusive range [start, end], and is empty when end < start |
| `Calendar.EnumeratedOnce` | gestao_ferias.py:107-110 | each business day of the range is enumerated exactly once, and no other date appears |
| `Calendar.BusinessDays` | gestao_ferias.py:68-70 | the count is 0 for an inverted range and at most the number of dates in the range |
| `Calendar.BusinessDaysIsCardinality` | gestao_ferias.py:68-70 | the count equals the number of Monday-to-Friday dates in the inclusive range |
| `Calendar.SingleDay` | gestao_ferias.py:68-70 | a single date counts 1 on a weekday and 0 on Saturday or Sunday |
| `Calendar.StepRight` | gestao_ferias.py:68-70 | extending the range by one date adds 1 exactly when that date is a weekday |
| `Calendar.Split` | gestao_ferias.py:68-70 | the count of a range is the sum of the counts of two adjacent parts |
| `Calendar.SevenDays` | gestao_ferias.py:68-70 | any seven consecutive dates, a Monday-to-Sunday week in particular, count 5 |
| `Calendar.MondayToFriday` | gestao_ferias.py:68-70 | a Monday-to-Friday range counts 5 |
| `Calendar.WholeWeeks` | gestao_ferias.py:68-70 | k whole weeks count 5k |
| `LimitCheck.FourWayOverlap` | gestao_ferias.py:90-95 | for well-formed ranges the four-way BETWEEN test is equivalent to `v.start <= end && start <= v.end` |
| `LimitCheck.FourWayIsOverlap` | gestao_ferias.py:90-95 | for well-formed ranges the four-way BETWEEN test holds exactly when the two ranges share a date |
| `LimitCheck.Selected` | gestao_ferias.py:89-95 | a selected row never belongs to the asking employee; for well-formed ranges a row is selected exactly when it is another employee's and overlaps the candidate range |
| `LimitCheck.Conflicting` | gestao_ferias.py:85-98 | the query returns exactly the rows of other employees that pass the four-way test, each as many times as it occurs in the table, and never more rows than the table has |
| `LimitCheck.CalendarEntries` | gestao_ferias.py:101-111 | every calendar entry is a business day inside the candidate range |
| `LimitCheck.ConflictAddsOnePerSharedBusinessDay` | gestao_ferias.py:103-111 | a selected row adds exactly 1 to each business day of its intersection with the candidate range and 0 elsewhere, including weekends; an unselected row adds nothing |
| `LimitCheck.CalendarMatchesOccupancy` | gestao_ferias.py:101-114 | after grouping, the sum on each date is the number of other employees' rows covering it when it is a business day of the candidate range, and 0 otherwise |
| `LimitCheck.FirstViolationFrom` | gestao_ferias.py:113-118 | the upward walk returns a flagged date in [from, end] with no flagged date before it, or None when no date in [from, end] is flagged |
| `LimitCheck.EarliestViolation` | gestao_ferias.py:113-120 | the answer is the earliest flagged date, or None when no date is flagged |
| `LimitCheck.ViolatedIff` | gestao_ferias.py:113-115 | with a maximum of at least 1, a date is flagged exactly when it is a business day of the candidate range covered by at least the maximum number of other employees' rows |
| `LimitCheck.BuildCalendar` | gestao_ferias.py:101-111 | the nested loops produce the calendar entries of the conflicting rows, in order |
| `LimitCheck.CountByDay` | gestao_ferias.py:114 | the grouped map has exactly the dates that occur in the calendar, each with its number of occurrences |
| `LimitCheck.FirstFlagged` | gestao_ferias.py:115-118 | returns the smallest grouped date whose sum reaches the maximum, or None when no sum does |
| `LimitCheck.CheckLimit` | gestao_ferias.py:72-120 | returns `(true, None)` or `(false, Some(d))`, and the day equals the specification `EarliestViolation` |
| `LimitCheck.EarliestIsUnique` | gestao_ferias.py:114-118 | any flagged date with no flagged date before it, or None when nothing is flagged, is the answer of `EarliestViolation` |
| `LimitCheck.RejectsExactlyWhenSomeDayIsFull` | gestao_ferias.py:113-120 | with a maximum of at least 1, the check rejects if and only if some business day of the range is covered by at least the maximum number of other employees' rows; the reported day is such a day and no earlier business day of the range is |
| `LimitCheck.NoConflictsAccepted` | gestao_ferias.py:98-120 | when the conflict query returns no rows, the check accepts |
| `LimitCheck.WeekendOnlyAccepted` | gestao_ferias.py:107-120 | a candidate range without a business day is always accepted |
| `LimitCheck.RowsOfOthers` | gestao_ferias.py:89 | keeps exactly the rows of employees other than the one asking, each as many times as it occurs in the table |
| `LimitCheck.OwnRowsNotCovered` | gestao_ferias.py:89 | removing the asking employee's rows leaves every date's count unchanged |
| `LimitCheck.OwnRowsIgnored` | gestao_ferias.py:89 | the asking employee's own rows never change the check's answer |
| `LimitCheck.PeopleAtMostRows` | gestao_ferias.py:101-114 | the distinct other employees away on a date are at most the rows counted for it |
| `LimitCheck.AcceptedBookingKeepsLimit` | gestao_ferias.py:206-219 | with a maximum of at least 1, appending an accepted booking keeps every business day at or below the maximum number of distinct employees away |
| `VacationStore.Store.Open` | gestao_ferias.py:53-56 | opening the tables keeps them and writes the default maximum of 2 when the configuration row is missing |
| `VacationStore.Store.Submit` | gestao_ferias.py:199-222 | rejects `end <= start` and a failed check, leaving the table unchanged; otherwise appends exactly one row with `BusinessDays(start, end)` days; employees and maximum unchanged; keeps the distinct-employee limit |
| `VacationStore.Store.UpdateMaxSimultaneous` | gestao_ferias.py:135-144 | writes the new maximum, reports whether it differed, changes nothing else; raising the maximum keeps the limit |
| `VacationStore.BookedRowIsSeenByOthers` | gestao_ferias.py:85-96 | a row just booked is returned by any other employee's conflict query whose range shares a date with it |
| `VacationStore.UsedDays` | gestao_ferias.py:246 | an employee without rows has used 0 days (the `COALESCE`), and nobody has used a negative number of days when no row is negative |
| `VacationStore.Summary` | gestao_ferias.py:242-251 | one summary line per employee, with its name and allotment, the days of its own rows as used days, and allotment minus used as remaining days |
| `VacationStore.UsedDaysAdditive` | gestao_ferias.py:246 | used days over two batches of rows add up |
| `VacationStore.BookingChargesOnlyItsEmployee` | gestao_ferias.py:242-251 | appending a row raises its own employee's used days and lowers remaining days by the row's days, and leaves every other line unchanged |
| `Scenarios.JuneWeekdaysRefused` | gestao_ferias.py:72-120 | with a maximum of 2, employees 1 and 2 away, a third employee asking for 5-6 June 2024 is refused at 5 June |
| `Scenarios.JuneWeekendAccepted` | gestao_ferias.py:107-120 | the same request for Saturday-Sunday 8-9 June is accepted |
| `Scenarios.RowsCountedNotPeople` | gestao_ferias.py:103-114 | two overlapping rows of one employee fill a maximum of 2 although one person is away |
| `Scenarios.WednesdayToMonday` | gestao_ferias.py:68-70 | Wednesday 5 to Monday 10 June counts 4 business days |
| `Scenarios.JuneTableConsistent` | gestao_ferias.py:199-219 | the June rows are rows the booking form could have written |
| `Scenarios.JuneBookings` | gestao_ferias.py:199-222 | through the store, an inverted range and a full day are refused and a weekend is booked with 0 days |

## Left out

- The Streamlit page, forms, tabs and widgets are presentation only (gestao_ferias.py:8-9, 127-266). The widgets' guarantees become `requires` clauses. The employee select box offers only registered employees (`Registered`). The maximum's number input has minimum 1 (`newMax >= 1`).
- The SQLite connection, table creation, commit and close are not modelled (12-65, 268-270). The tables are in-memory sequences. `Store.Open` starts from existing tables that satisfy the invariants the application's own writes keep.
- The `except Error` paths are not modelled (59-60, 122-124, 168-169, 221-222). They only report driver failures. This includes the check's `(False, None)` answer on a driver error.
- Employee registration and the employee list are not modelled (153-177). They are plain inserts and reads outside the booking rule.
- The "next five vacations" report is not modelled (254-264). It reads the clock and only displays rows.
- The listing of all vacations is not modelled (230-239). It is display only.
- The inner join with `funcionarios` in the conflict query is not modelled (88). `Store.Valid` guarantees that every row's employee is registered, so the join drops nothing.
- The `id` primary key of `ferias` rows is not modelled. Nothing in the rule reads it.
- The order of summary lines is not modelled. The query has no `ORDER BY`, so the model lists lines in employee-table order.
- Parsing dates with `pd.to_datetime` and rendering the violating day with `strftime('%d/%m/%Y')` are not modelled (81-82, 104-105, 118). The model returns the day number.
- The read-then-write race between two concurrent submissions is not modelled. Concurrency is out of scope.
