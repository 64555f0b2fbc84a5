/** Concrete bookings in June 2024 (day 19877 is Monday 2024-06-03), and a
    client of the store that books through the form's submit flow. */
module Scenarios {
  import opened Calendar
  import opened Records
  import opened LimitCheck
  import opened VacationStore

  const Monday3: Date := 19877
  const Wednesday5: Date := 19879
  const Thursday6: Date := 19880
  const Friday7: Date := 19881
  const Saturday8: Date := 19882
  const Sunday9: Date := 19883
  const Monday10: Date := 19884

  /** Employee 1 away Monday 3 to Friday 7, employee 2 away Wednesday 5 to Monday 10. */
  function JuneTable(): seq<Vacation> {
    [Vacation(1, Monday3, Friday7, 5), Vacation(2, Wednesday5, Monday10, 4)]
  }

  /** With a maximum of 2, a third employee asking for Wednesday 5 to Thursday 6
      is refused, and Wednesday 5 is the day reported. */
  lemma JuneWeekdaysRefused()
    ensures EarliestViolation(JuneTable(), 2, Wednesday5, Thursday6, 3) == Some(Wednesday5)
  {
    var table := JuneTable();
    assert table[..1] == [table[0]];
    assert CoverCount(table, 3, Wednesday5) == 2;
    assert Violated(table, 2, Wednesday5, Thursday6, 3, Wednesday5);
    EarliestIsUnique(table, 2, Wednesday5, Thursday6, 3, Some(Wednesday5));
  }

  /** The same employee asking for the weekend of 8 and 9 June is accepted. */
  lemma JuneWeekendAccepted()
    ensures EarliestViolation(JuneTable(), 2, Saturday8, Sunday9, 3) == None
  {
    StepRight(Saturday8, Sunday9);
    SingleDay(Saturday8);
    WeekendOnlyAccepted(JuneTable(), 2, Saturday8, Sunday9, 3);
  }

  /** Rows are counted, not people: two overlapping rows of employee 2 fill a
      maximum of 2 on Wednesday 5 although only one person is away. */
  lemma RowsCountedNotPeople()
    ensures var table := [Vacation(2, Wednesday5, Thursday6, 2), Vacation(2, Wednesday5, Friday7, 3)];
            |OnLeave(table, Wednesday5)| == 1 &&
            EarliestViolation(table, 2, Wednesday5, Thursday6, 3) == Some(Wednesday5)
  {
    var table := [Vacation(2, Wednesday5, Thursday6, 2), Vacation(2, Wednesday5, Friday7, 3)];
    assert table[..1] == [table[0]] && table[..1][..0] == [];
    assert OnLeave(table[..1], Wednesday5) == {2};
    assert OnLeave(table, Wednesday5) == {2};
    assert CoverCount(table[..1], 3, Wednesday5) == 1;
    assert CoverCount(table, 3, Wednesday5) == 2;
    assert Violated(table, 2, Wednesday5, Thursday6, 3, Wednesday5);
    EarliestIsUnique(table, 2, Wednesday5, Thursday6, 3, Some(Wednesday5));
  }

  function JuneStaff(): seq<Employee> {
    [Employee(1, "Ana", 0, 22), Employee(2, "Bruno", 0, 22), Employee(3, "Carla", 0, 22)]
  }

  lemma WednesdayToMonday()
    ensures BusinessDays(Wednesday5, Monday10) == 4
  {
    StepRight(Wednesday5, Monday10);
    StepRight(Wednesday5, Sunday9);
    StepRight(Wednesday5, Saturday8);
    StepRight(Wednesday5, Friday7);
    StepRight(Wednesday5, Thursday6);
    SingleDay(Wednesday5);
  }

  /** The June rows are what the booking form would have written. */
  lemma JuneTableConsistent()
    ensures Consistent(JuneStaff(), JuneTable(), DefaultMaxSimultaneous)
  {
    MondayToFriday(Monday3);
    WednesdayToMonday();
    var staff, table := JuneStaff(), JuneTable();
    assert WellFormedRow(table[0]) && WellFormedRow(table[1]);
    assert staff[0].id == 1 && staff[1].id == 2;
    assert Registered(staff, table[0].employee) && Registered(staff, table[1].employee);
    assert DistinctIds(staff);
  }

  /** Books through the store: an inverted range and a full day are refused
      without touching the table, a weekend is booked with 0 business days. */
  method JuneBookings() returns (store: Store)
    ensures store.Valid()
    ensures store.vacations == JuneTable() + [Vacation(3, Saturday8, Sunday9, 0)]
  {
    JuneTableConsistent();
    store := new Store.Open(JuneStaff(), JuneTable(), None);
    assert JuneStaff()[2].id == 3;

    var outcome := store.Submit(3, Thursday6, Wednesday5);
    assert outcome == InvalidRange && store.vacations == JuneTable();

    JuneWeekdaysRefused();
    outcome := store.Submit(3, Wednesday5, Thursday6);
    assert outcome == LimitExceeded(Wednesday5) && store.vacations == JuneTable();

    JuneWeekendAccepted();
    StepRight(Saturday8, Sunday9);
    SingleDay(Saturday8);
    outcome := store.Submit(3, Saturday8, Sunday9);
    assert outcome == Booked(0);
  }
}
