/**
 Instants, durations and calendar days.

 An instant is a count of nanoseconds since Go's zero time (January 1 of
 year 1, 00:00:00 UTC), so the zero value of a date field is the instant 0.
 A duration is Go's `time.Duration`: a signed 64-bit count of nanoseconds.
 The calendar day of an instant stands in for gostradamus' `CeilDay`: two
 instants fall on the same day exactly when they lie in the same 24-hour
 window counted from the zero time (time zones are not modelled).
 */
module Dates {
  import opened Ints

  const NanosPerHour: int := 3_600_000_000_000
  const NanosPerDay: int := 24 * NanosPerHour

  /** Go's `time.Duration`, an int64 count of nanoseconds. */
  type Duration = int64

  datatype DateTime = DateTime(nanos: int)

  /** The zero value of a date field: Go's `time.Time{}`. */
  const ZeroDate: DateTime := DateTime(0)

  /** January 1 2022, 00:00 UTC: 738155 days after the zero time. */
  const Jan1st2022: DateTime := DateTime(738155 * NanosPerDay)

  /** January 2 2022, 00:00 UTC. */
  const Jan2nd2022: DateTime := DateTime(738156 * NanosPerDay)

  predicate IsZero(d: DateTime) {
    d.nanos == 0
  }

  /** Go's `Time.Before`: strictly earlier. */
  predicate Before(a: DateTime, b: DateTime) {
    a.nanos < b.nanos
  }

  /** Go's `Time.After`: strictly later. */
  predicate After(a: DateTime, b: DateTime) {
    a.nanos > b.nanos
  }

  /** Go's `Time.Add`. */
  function Plus(d: DateTime, dur: int): DateTime {
    DateTime(d.nanos + dur)
  }

  /** The calendar day that contains `d`, numbered from the zero time. */
  function DayOf(d: DateTime): (day: int)
    ensures day * NanosPerDay <= d.nanos < (day + 1) * NanosPerDay
  {
    d.nanos / NanosPerDay
  }
}
