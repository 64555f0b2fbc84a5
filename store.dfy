/** The three tables held in memory: `funcionarios`, `ferias` and the single
    `configuracoes` row. The booking form appends to `ferias` after the limit
    check, the settings control rewrites the maximum, and the summary report
    adds up each employee's booked days. */
module VacationStore {
  import opened Calendar
  import opened Records
  import opened LimitCheck

  /** The maximum written when the configuration row is missing. */
  const DefaultMaxSimultaneous: int := 2

  /** What the booking form reports back. */
  datatype SubmitOutcome =
    | InvalidRange          // the last day is not after the first
    | LimitExceeded(day: Date)  // the limit check flagged `day`
    | Booked(days: nat)     // one row appended, worth `days` business days

  /** A row as the booking form writes it: last day after the first, and the business days of the range. */
  predicate WellFormedRow(v: Vacation) {
    v.start < v.end && v.days == BusinessDays(v.start, v.end)
  }

  predicate Registered(staff: seq<Employee>, id: EmployeeId) {
    exists k :: 0 <= k < |staff| && staff[k].id == id
  }

  predicate DistinctIds(staff: seq<Employee>) {
    forall i, j :: 0 <= i < j < |staff| ==> staff[i].id != staff[j].id
  }

  /** What the application's own writes keep true of the tables. */
  predicate Consistent(staff: seq<Employee>, table: seq<Vacation>, maxSim: int) {
    maxSim >= 1 && DistinctIds(staff) &&
    forall i :: 0 <= i < |table| ==> WellFormedRow(table[i]) && Registered(staff, table[i].employee)
  }

  class Store {
    var employees: seq<Employee>
    var vacations: seq<Vacation>
    var maxSimultaneous: int

    ghost predicate Valid()
      reads this
    {
      Consistent(employees, vacations, maxSimultaneous)
    }

    /** Opens existing tables; when the configuration row is missing, the default maximum of 2 is written. */
    constructor Open(staff: seq<Employee>, booked: seq<Vacation>, config: Option<int>)
      requires Consistent(staff, booked, if config.None? then DefaultMaxSimultaneous else config.value)
      ensures Valid()
      ensures employees == staff && vacations == booked
      ensures maxSimultaneous == if config.None? then DefaultMaxSimultaneous else config.value
    {
      employees := staff;
      vacations := booked;
      maxSimultaneous := if config.None? then DefaultMaxSimultaneous else config.value;
    }

    /** The booking form's submit: reject a range whose last day is not after its
        first; otherwise count the business days, run the limit check, and append
        one row only when it accepts. */
    method Submit(employee: EmployeeId, start: Date, end: Date) returns (outcome: SubmitOutcome)
      requires Valid()
      requires Registered(employees, employee)
      modifies this
      ensures Valid()
      ensures employees == old(employees) && maxSimultaneous == old(maxSimultaneous)
      ensures outcome == if end <= start then InvalidRange
                         else match EarliestViolation(old(vacations), old(maxSimultaneous), start, end, employee)
                              case Some(d) => LimitExceeded(d)
                              case None => Booked(BusinessDays(start, end))
      ensures vacations == if outcome.Booked? then old(vacations) + [Vacation(employee, start, end, BusinessDays(start, end))]
                           else old(vacations)
      ensures old(WithinLimit(vacations, maxSimultaneous)) ==> WithinLimit(vacations, maxSimultaneous)
    {
      if end <= start {
        return InvalidRange;
      }
      var days := BusinessDays(start, end);
      var ok, problem := CheckLimit(vacations, maxSimultaneous, start, end, employee);
      if !ok {
        return LimitExceeded(problem.value);
      }
      var row := Vacation(employee, start, end, days);
      if WithinLimit(vacations, maxSimultaneous) {
        AcceptedBookingKeepsLimit(vacations, maxSimultaneous, start, end, employee, days);
      }
      vacations := vacations + [row];
      outcome := Booked(days);
    }

    /** The settings control: write the new maximum when it differs from the stored one. */
    method UpdateMaxSimultaneous(newMax: int) returns (changed: bool)
      requires Valid()
      requires newMax >= 1
      modifies this
      ensures Valid()
      ensures changed == (newMax != old(maxSimultaneous))
      ensures maxSimultaneous == newMax
      ensures employees == old(employees) && vacations == old(vacations)
      ensures old(WithinLimit(vacations, maxSimultaneous)) && newMax >= old(maxSimultaneous) ==> WithinLimit(vacations, maxSimultaneous)
    {
      changed := newMax != maxSimultaneous;
      if changed {
        maxSimultaneous := newMax;
      }
    }
  }

  /** A row just booked for `v.employee` is returned by the conflict query of any
      other employee whose range shares a date with it. */
  lemma BookedRowIsSeenByOthers(table: seq<Vacation>, v: Vacation, start: Date, end: Date, other: EmployeeId)
    requires v.start <= v.end && start <= end
    requires v.employee != other && v.start <= end && start <= v.end
    ensures v in Conflicting(table + [v], start, end, other)
  {
    FourWayIsOverlap(v, start, end);
  }

  /** One line of the per-employee summary. */
  datatype SummaryRow = SummaryRow(name: string, allotted: int, used: int, remaining: int)

  /** `COALESCE(SUM(f.dias), 0)` over the rows of employee `id`. */
  function UsedDays(table: seq<Vacation>, id: EmployeeId): (used: int)
    ensures (forall v :: v in table ==> v.employee != id) ==> used == 0
    ensures (forall v :: v in table ==> v.days >= 0) ==> used >= 0
  {
    if table == [] then 0
    else
      var last := table[|table| - 1];
      assert table == table[..|table| - 1] + [last];
      UsedDays(table[..|table| - 1], id) + (if last.employee == id then last.days else 0)
  }

  /** The summary report: one line per employee, grouped by employee id. */
  function Summary(staff: seq<Employee>, table: seq<Vacation>): (lines: seq<SummaryRow>)
    ensures |lines| == |staff|
    ensures forall i :: 0 <= i < |staff| ==>
              lines[i].name == staff[i].name && lines[i].allotted == staff[i].allowance &&
              lines[i].used == UsedDays(table, staff[i].id) && lines[i].remaining == lines[i].allotted - lines[i].used
  {
    seq(|staff|, i requires 0 <= i < |staff| =>
      var used := UsedDays(table, staff[i].id);
      SummaryRow(staff[i].name, staff[i].allowance, used, staff[i].allowance - used))
  }

  /** The used days of two batches of rows add up. */
  lemma {:induction false} UsedDaysAdditive(first: seq<Vacation>, second: seq<Vacation>, id: EmployeeId)
    ensures UsedDays(first + second, id) == UsedDays(first, id) + UsedDays(second, id)
    decreases |second|
  {
    if second != [] {
      var rest := second[..|second| - 1];
      UsedDaysAdditive(first, rest, id);
      assert (first + second)[..|first + second| - 1] == first + rest;
    } else {
      assert first + second == first;
    }
  }

  /** Booking a row charges its days to its own employee's line only: used
      days go up and remaining days go down by the row's days, and every
      other line is as it was. */
  lemma BookingChargesOnlyItsEmployee(staff: seq<Employee>, table: seq<Vacation>, v: Vacation, i: nat)
    requires i < |staff|
    ensures var before, after := Summary(staff, table)[i], Summary(staff, table + [v])[i];
            var charge := if staff[i].id == v.employee then v.days else 0;
            after.name == before.name && after.allotted == before.allotted &&
            after.used == before.used + charge && after.remaining == before.remaining - charge
  {
    UsedDaysAdditive(table, [v], staff[i].id);
  }
}
