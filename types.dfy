/** The records of src/types.rs: naive (zone-less) dates, times and timestamps
    in the shape chrono gives them, and the `Event` row of the event table. */
module Types {
  import opened Basics

  /** A proleptic Gregorian calendar date (chrono's `NaiveDate`). */
  datatype Date = Date(year: int, month: int, day: int)

  /** A wall-clock time of day (chrono's `NaiveTime`, without its nanoseconds). */
  datatype Time = Time(hour: int, minute: int, second: int)

  /** chrono's `NaiveDateTime`: a date and a time of day. */
  datatype DateTime = DateTime(date: Date, time: Time)

  predicate IsLeapYear(y: int) {
    (y % 4 == 0 && y % 100 != 0) || y % 400 == 0
  }

  function DaysInMonth(y: int, m: int): (n: int)
    requires 1 <= m <= 12
    ensures 28 <= n <= 31
    ensures m == 2 ==> (n == 29 <==> IsLeapYear(y))
  {
    if m == 2 then (if IsLeapYear(y) then 29 else 28)
    else if m == 4 || m == 6 || m == 9 || m == 11 then 30
    else 31
  }

  /** The date names a day that exists in the calendar. */
  predicate ValidDate(d: Date) {
    1 <= d.month <= 12 && 1 <= d.day <= DaysInMonth(d.year, d.month)
  }

  predicate ValidTime(t: Time) {
    0 <= t.hour < 24 && 0 <= t.minute < 60 && 0 <= t.second < 60
  }

  /** chrono orders dates, times and timestamps lexicographically by their components. */
  predicate DateBefore(a: Date, b: Date) {
    a.year < b.year
    || (a.year == b.year && (a.month < b.month || (a.month == b.month && a.day < b.day)))
  }

  predicate TimeBefore(a: Time, b: Time) {
    a.hour < b.hour
    || (a.hour == b.hour && (a.minute < b.minute || (a.minute == b.minute && a.second < b.second)))
  }

  /** `a <= b` on `NaiveDateTime`. */
  predicate AtOrBefore(a: DateTime, b: DateTime) {
    DateBefore(a.date, b.date) || (a.date == b.date && (TimeBefore(a.time, b.time) || a.time == b.time))
  }

  lemma AtOrBeforeTotal(a: DateTime, b: DateTime)
    ensures AtOrBefore(a, b) || AtOrBefore(b, a)
    ensures AtOrBefore(a, b) && AtOrBefore(b, a) ==> a == b
  {
  }

  lemma AtOrBeforeTransitive(a: DateTime, b: DateTime, c: DateTime)
    requires AtOrBefore(a, b) && AtOrBefore(b, c)
    ensures AtOrBefore(a, c)
  {
  }

  /** One scheduled occurrence (src/types.rs:5-19). */
  datatype Event = Event(
    eventId: u64,
    fromDatetime: DateTime,
    toDatetime: DateTime,
    department: string,
    className: string,
    subject: string,
    teacher: string,
    room: string,
    building: string,
    modifiedAt: Option<DateTime>,
    modifiedBy: Option<string>,
    visible: bool
  )

  /** The single opaque `surrealdb::Error`. */
  datatype DbError = DbError
}
