/** The effort records of `internal/model/effort.go`. */
module Efforts {
  import opened Wrappers
  import opened Dates
  import opened Identity
  import opened Ints
  import opened Validators

  datatype Effort = Effort(id: Uuid, date: DateTime, duration: Duration, description: string)

  const DateMessage: string := "The effort date is not defined"
  const DurationMessage: string := "The duration must not be zero"

  function EffortId(e: Effort): Uuid {
    e.id
  }

  function NewEffort(id: Uuid, date: DateTime, duration: Duration): (e: Effort)
    ensures e.id == id && e.date == date && e.duration == duration
    ensures e.description == ""
  {
    Effort(id, date, duration, "")
  }

  /**
   The date must be defined and the duration strictly positive; a negative
   duration fails with the same message as a zero one.
   */
  function Validate(e: Effort): (r: Option<CombinedError>)
    ensures r == None <==> e.date.nanos != 0 && e.duration > 0
    ensures r.Some? ==>
              r.value.messages == (if e.date.nanos == 0 then [DateMessage] else []) + (if e.duration <= 0 then [DurationMessage] else [])
  {
    var nanos: Number := GoInt(Int64, e.duration);
    var v := IsDateDefined(NewValidator(), e.date, DateMessage);
    var v := IsPositive(v, nanos, DurationMessage);
    assert v.errors == (if e.date.nanos == 0 then [DateMessage] else []) + (if e.duration <= 0 then [DurationMessage] else []);
    AllValid(v)
  }

  /** An undefined date and a non-positive duration make two errors, the date's first. */
  lemma BothFailuresInOrder(e: Effort)
    requires e.date.nanos == 0 && e.duration <= 0
    ensures Validate(e) == Some(CombinedError([DateMessage, DurationMessage]))
  {
    assert [DateMessage] + [DurationMessage] == [DateMessage, DurationMessage];
  }

  /** The description plays no part in validity. */
  lemma ValidateIgnoresDescription(e: Effort, description: string)
    ensures Validate(e.(description := description)) == Validate(e)
  {
  }
}
