/** The rows of the `funcionarios` and `ferias` tables, as typed records. */
module Records {
  import opened Calendar

  type EmployeeId = int

  datatype Option<T> = None | Some(value: T)

  /** A row of `funcionarios`: identifier, name, hire date and yearly vacation allotment. */
  datatype Employee = Employee(id: EmployeeId, name: string, hireDate: Date, allowance: int)

  /** A row of `ferias`: owner, first and last day (both inclusive) and the
      business-day count stored when the row was booked. */
  datatype Vacation = Vacation(employee: EmployeeId, start: Date, end: Date, days: int)
}
