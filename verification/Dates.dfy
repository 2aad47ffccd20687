/** Calendar dates, as Python's datetime.date compares them. */
module Dates {
  datatype Date = Date(year: int, month: int, day: int)

  predicate After(a: Date, b: Date) {
    a.year > b.year || (a.year == b.year && (a.month > b.month || (a.month == b.month && a.day > b.day)))
  }
}
