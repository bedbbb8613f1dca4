/**
 The agile todo of `internal/model/todo.go` and its effort ledger.

 `AddEffort` is the one operation where aggregate state gates an insert:
 an effort is attached only if the durations logged on its calendar day,
 plus its own, stay within 24 hours. The Go method as written never reaches
 that rule (see the `AsWritten` members at the end); `AddEffort` models the
 rule its doc comment states.
 */
module Agile {
  import opened Wrappers
  import opened Dates
  import opened Identity
  import opened Ints
  import opened Validators
  import opened Efforts
  import Todos
  import Keyed

  datatype AgileTodo = AgileTodo(todo: Todos.Todo, points: uint8, estimatedDuration: Duration, efforts: seq<Effort>)

  /** 24 hours, the most effort one calendar day may carry. */
  const DayBudget: int := NanosPerDay

  /** The durations of the efforts dated on `day`, added up. */
  function DaySum(efs: seq<Effort>, day: int): int {
    if |efs| == 0 then 0
    else (if DayOf(efs[0].date) == day then efs[0].duration else 0) + DaySum(efs[1..], day)
  }

  /** The ledger invariant: no calendar day carries more than 24 hours of effort. */
  ghost predicate WithinBudget(efs: seq<Effort>) {
    forall day :: DaySum(efs, day) <= DayBudget
  }

  /** Every attached duration is zero or more; `AddEffort` does not enforce it. */
  ghost predicate NonNegative(efs: seq<Effort>) {
    forall i :: 0 <= i < |efs| ==> efs[i].duration >= 0
  }

  /** The agile todo invariant: unique effort IDs and the daily budget. */
  ghost predicate WellFormed(ag: AgileTodo) {
    Keyed.Unique(ag.efforts, EffortId) && WithinBudget(ag.efforts)
  }

  /** A new agile todo: a new todo with no points, no estimate and no effort. */
  function NewAgileTodo(base: Base, name: string): (ag: AgileTodo)
    ensures ag.todo == Todos.NewTodo(base, name)
    ensures ag.points == 0 && ag.estimatedDuration == 0 && ag.efforts == []
    ensures WellFormed(ag)
  {
    AgileTodo(Todos.NewTodo(base, name), 0, 0, [])
  }

  function HasEffort(ag: AgileTodo, id: Uuid): (b: bool)
    ensures b <==> exists i :: 0 <= i < |ag.efforts| && ag.efforts[i].id == id
  {
    Keyed.Has(ag.efforts, EffortId, id)
  }

  /** Detaches the effort with that ID, keeping the order of the others; a no-op when it is absent. */
  function RemoveEffort(ag: AgileTodo, id: Uuid): (r: AgileTodo)
    ensures !HasEffort(ag, id) ==> r == ag
    ensures HasEffort(ag, id) ==>
              exists i :: 0 <= i < |ag.efforts| && ag.efforts[i].id == id && (forall j :: 0 <= j < i ==> ag.efforts[j].id != id)
                       && r == ag.(efforts := ag.efforts[..i] + ag.efforts[i + 1..])
    ensures forall other :: other != id ==> (HasEffort(r, other) <==> HasEffort(ag, other))
    ensures Keyed.Unique(ag.efforts, EffortId) ==> Keyed.Unique(r.efforts, EffortId) && !HasEffort(r, id)
    ensures WithinBudget(ag.efforts) && NonNegative(ag.efforts) ==> WithinBudget(r.efforts)
  {
    RemoveKeepsBudget(ag.efforts, id);
    ag.(efforts := Keyed.Remove(ag.efforts, EffortId, id))
  }

  /** The selection predicate of `GetEffortsFor`: efforts dated on `date`'s calendar day. */
  function OnDayOf(date: DateTime): Effort -> bool {
    (e: Effort) => DayOf(e.date) == DayOf(date)
  }

  /**
   `findEffortAtSameTime` as its name promises: efforts dated on `ef`'s
   calendar day. The Go predicate guards its date test with the negated
   assertion flag as well, so as written it matches nothing; see
   `SameDayAsWritten`.
   */
  function SameDayAs(ef: Effort): (p: Effort -> bool)
    ensures forall e: Effort :: p(e) <==> DayOf(e.date) == DayOf(ef.date)
  {
    OnDayOf(ef.date)
  }

  /** The sum of the given efforts' durations. */
  function Total(efs: seq<Effort>): int {
    if |efs| == 0 then 0 else efs[0].duration + Total(efs[1..])
  }

  /** The attached efforts dated on `date`'s calendar day, in insertion order; the todo is not changed. */
  function GetEffortsFor(ag: AgileTodo, date: DateTime): (r: seq<Effort>)
    ensures forall i :: 0 <= i < |r| ==> r[i] in ag.efforts && DayOf(r[i].date) == DayOf(date)
    ensures forall i :: 0 <= i < |ag.efforts| && DayOf(ag.efforts[i].date) == DayOf(date) ==> ag.efforts[i] in r
    ensures Total(r) == DaySum(ag.efforts, DayOf(date))
  {
    SelectedTotal(ag.efforts, date);
    Keyed.SelectWhere(ag.efforts, OnDayOf(date))
  }

  /** The selection keeps insertion order: a later effort is reported after the earlier ones. */
  lemma GetEffortsForInsertionOrder(ag: AgileTodo, e: Effort, date: DateTime)
    ensures GetEffortsFor(ag.(efforts := ag.efforts + [e]), date) ==
            GetEffortsFor(ag, date) + (if DayOf(e.date) == DayOf(date) then [e] else [])
  {
    Keyed.SelectAppend(ag.efforts, e, OnDayOf(date));
  }

  /**
   The 24-hour gate: starting from midnight on January 1 2022, the logged
   time must not pass midnight on January 2. It admits exactly the totals
   of at most 24 hours, the bound included.
   */
  function FitsInDay(logged: int): (b: bool)
    ensures b <==> logged <= DayBudget
  {
    !After(Plus(Jan1st2022, logged), Jan2nd2022)
  }

  /** What `AddEffort` reports alongside the updated todo. */
  datatype Logged = Logged(agile: AgileTodo, accepted: bool)

  /**
   Attaches `eff` at the end unless an effort with its ID is attached or
   its day would then carry more than 24 hours; a rejection changes nothing.
   */
  function AddEffort(ag: AgileTodo, eff: Effort): (r: Logged)
    ensures r.accepted <==> !HasEffort(ag, eff.id) && DaySum(ag.efforts, DayOf(eff.date)) + eff.duration <= DayBudget
    ensures r.accepted ==> r.agile == ag.(efforts := ag.efforts + [eff])
    ensures !r.accepted ==> r.agile == ag
    ensures WellFormed(ag) ==> WellFormed(r.agile)
  {
    if Keyed.Find(ag.efforts, EffortId, eff.id).Some? then Logged(ag, false)
    else
      SelectedTotal(ag.efforts, eff.date);
      var logged := Total(Keyed.SelectWhere(ag.efforts, SameDayAs(eff))) + eff.duration;
      if FitsInDay(logged) then
        AppendKeepsBudget(ag.efforts, eff);
        Keyed.AppendAbsentKeepsUnique(ag.efforts, eff, EffortId);
        Logged(ag.(efforts := ag.efforts + [eff]), true)
      else Logged(ag, false)
  }

  /** Only the name is required, with the same message as a plain todo. */
  function Validate(ag: AgileTodo): (r: Option<CombinedError>)
    ensures r == None <==> ag.todo.name != ""
    ensures r.Some? ==> r.value.messages == [Todos.NameMessage]
  {
    var v := RequireNonEmpty(NewValidator(), ag.todo.name, Todos.NameMessage);
    AllValid(v)
  }

  /** An agile todo is valid exactly when its embedded todo is; points and efforts play no part. */
  lemma ValidateAgreesWithTodo(ag: AgileTodo)
    ensures Validate(ag) == Todos.Validate(ag.todo)
  {
  }

  // ---------------------------------------------------------------------
  // Day sums

  lemma {:induction false} DaySumConcat(a: seq<Effort>, b: seq<Effort>, day: int)
    ensures DaySum(a + b, day) == DaySum(a, day) + DaySum(b, day)
    decreases |a|
  {
    if |a| == 0 {
      assert a + b == b;
    } else {
      assert (a + b)[1..] == a[1..] + b;
      DaySumConcat(a[1..], b, day);
    }
  }

  /** Appending an effort adds its duration to its own day and to no other. */
  lemma DaySumAppend(efs: seq<Effort>, e: Effort, day: int)
    ensures DaySum(efs + [e], day) == DaySum(efs, day) + (if DayOf(e.date) == day then e.duration else 0)
  {
    DaySumConcat(efs, [e], day);
  }

  /** The gate's sum over the selected efforts is the day sum. */
  lemma {:induction false} SelectedTotal(efs: seq<Effort>, date: DateTime)
    ensures Total(Keyed.SelectWhere(efs, OnDayOf(date))) == DaySum(efs, DayOf(date))
    decreases |efs|
  {
    if |efs| > 0 {
      var p := OnDayOf(date);
      var head := if p(efs[0]) then [efs[0]] else [];
      SelectedTotal(efs[1..], date);
      TotalConcat(head, Keyed.SelectWhere(efs[1..], p));
    }
  }

  lemma {:induction false} TotalConcat(a: seq<Effort>, b: seq<Effort>)
    ensures Total(a + b) == Total(a) + Total(b)
    decreases |a|
  {
    if |a| == 0 {
      assert a + b == b;
    } else {
      assert (a + b)[1..] == a[1..] + b;
      TotalConcat(a[1..], b);
    }
  }

  /** An admitted effort keeps every day within budget. */
  lemma AppendKeepsBudget(efs: seq<Effort>, e: Effort)
    requires DaySum(efs, DayOf(e.date)) + e.duration <= DayBudget
    ensures WithinBudget(efs) ==> WithinBudget(efs + [e])
  {
    forall day
      ensures WithinBudget(efs) ==> DaySum(efs + [e], day) <= DayBudget
    {
      DaySumAppend(efs, e, day);
    }
  }

  /** Detaching an effort takes its duration off its own day and leaves the other days alone. */
  lemma DaySumRemoveAt(efs: seq<Effort>, i: nat, day: int)
    requires i < |efs|
    ensures DaySum(efs[..i] + efs[i + 1..], day) == DaySum(efs, day) - (if DayOf(efs[i].date) == day then efs[i].duration else 0)
  {
    assert efs == efs[..i] + [efs[i]] + efs[i + 1..];
    DaySumConcat(efs[..i] + [efs[i]], efs[i + 1..], day);
    DaySumConcat(efs[..i], [efs[i]], day);
    DaySumConcat(efs[..i], efs[i + 1..], day);
  }

  /** With no negative durations, detaching an effort cannot push a day over budget. */
  lemma RemoveKeepsBudget(efs: seq<Effort>, id: Uuid)
    ensures WithinBudget(efs) && NonNegative(efs) ==> WithinBudget(Keyed.Remove(efs, EffortId, id))
  {
    if WithinBudget(efs) && NonNegative(efs) && Keyed.Contains(efs, EffortId, id) {
      var r := Keyed.Remove(efs, EffortId, id);
      var i :| 0 <= i < |efs| && EffortId(efs[i]) == id && r == efs[..i] + efs[i + 1..];
      forall day
        ensures DaySum(r, day) <= DayBudget
      {
        DaySumRemoveAt(efs, i, day);
      }
    }
  }

  // ---------------------------------------------------------------------
  // Scenarios

  /** Two 10-hour efforts on one day are accepted, a third of 5 hours is refused, and the day lists the two. */
  lemma DailyCapScenario(ag: AgileTodo, e1: Effort, e2: Effort, e3: Effort)
    requires ag.efforts == []
    requires e1.id != e2.id && e3.id != e1.id && e3.id != e2.id
    requires DayOf(e2.date) == DayOf(e1.date) && DayOf(e3.date) == DayOf(e1.date)
    requires e1.duration == 10 * NanosPerHour && e2.duration == 10 * NanosPerHour && e3.duration == 5 * NanosPerHour
    ensures
      var r1 := AddEffort(ag, e1);
      var r2 := AddEffort(r1.agile, e2);
      var r3 := AddEffort(r2.agile, e3);
      r1.accepted && r2.accepted && !r3.accepted && GetEffortsFor(r3.agile, e1.date) == [e1, e2]
  {
    var day := DayOf(e1.date);
    var r1 := AddEffort(ag, e1);
    assert r1.accepted && r1.agile.efforts == [e1];
    DaySumAppend([], e1, day);
    assert [] + [e1] == [e1];
    var r2 := AddEffort(r1.agile, e2);
    assert !HasEffort(r1.agile, e2.id);
    assert r2.accepted && r2.agile.efforts == [e1, e2];
    DaySumAppend([e1], e2, day);
    assert [e1] + [e2] == [e1, e2];
    var r3 := AddEffort(r2.agile, e3);
    assert !r3.accepted;
    GetEffortsForInsertionOrder(ag, e1, e1.date);
    GetEffortsForInsertionOrder(r1.agile, e2, e1.date);
  }

  /**
   Durations may be negative, so a day can be filled past 24 hours by
   detaching an effort: -1h then 25h are both accepted, and removing the
   first leaves 25 hours on that day.
   */
  lemma RemovingNegativeEffortBreaksBudget(ag: AgileTodo, e1: Effort, e2: Effort)
    requires ag.efforts == []
    requires e1.id != e2.id && DayOf(e2.date) == DayOf(e1.date)
    requires e1.duration == -NanosPerHour && e2.duration == 25 * NanosPerHour
    ensures
      var r1 := AddEffort(ag, e1);
      var r2 := AddEffort(r1.agile, e2);
      r1.accepted && r2.accepted && WellFormed(r2.agile) && !WithinBudget(RemoveEffort(r2.agile, e1.id).efforts)
  {
    var day := DayOf(e1.date);
    var r1 := AddEffort(ag, e1);
    assert r1.accepted && r1.agile.efforts == [e1];
    DaySumAppend([], e1, day);
    assert [] + [e1] == [e1];
    var r2 := AddEffort(r1.agile, e2);
    assert !HasEffort(r1.agile, e2.id);
    assert r2.accepted && r2.agile.efforts == [e1, e2];
    DaySumAppend([e1], e2, day);
    assert [e1] + [e2] == [e1, e2];
    assert WellFormed(r1.agile);
    var r := RemoveEffort(r2.agile, e1.id);
    assert r.efforts == [e2];
    assert DaySum([e2], day) > DayBudget;
  }

  // ---------------------------------------------------------------------
  // The Go code as written

  /** What the Go `AddEffort` can do: accept, refuse, or panic. */
  datatype Outcome = Accepted(agile: AgileTodo) | Refused | Panicked

  /**
   `AddEffort` as written. The lookup predicate never matches, and on the
   "not found" branch the nil result is type-asserted to `*Effort`, which
   panics before any sum is computed.
   */
  function AddEffortAsWritten(ag: AgileTodo, eff: Effort): Outcome {
    match Keyed.FindAsWritten(ag.efforts, EffortId, eff.id)
    case None => Panicked
    case Some(_) => Refused
  }

  /** Every call of the as-written `AddEffort` panics; the intended one accepts an effort that fits. */
  lemma AddEffortAsWrittenPanics(ag: AgileTodo, eff: Effort)
    ensures AddEffortAsWritten(ag, eff) == Panicked
    ensures !HasEffort(ag, eff.id) && DaySum(ag.efforts, DayOf(eff.date)) + eff.duration <= DayBudget ==>
              AddEffort(ag, eff).accepted
  {
    Keyed.LookupsAsWrittenNeverMatch(ag.efforts, eff, EffortId, eff.id);
  }

  /**
   The 24-hour gate as written: the results of `t.Add` are discarded, so
   `t` is still midnight on January 1 when it is compared with January 2,
   whatever was logged.
   */
  function FitsInDayAsWritten(sameDay: seq<Effort>, eff: Effort): bool {
    !After(Jan1st2022, Jan2nd2022)
  }

  /** The as-written gate admits a 25-hour day that the intended gate refuses. */
  lemma GateAsWrittenAdmitsOverBudget(sameDay: seq<Effort>, eff: Effort)
    requires Total(sameDay) + eff.duration > DayBudget
    ensures FitsInDayAsWritten(sameDay, eff)
    ensures !FitsInDay(Total(sameDay) + eff.duration)
  {
  }

  /** `GetEffortsFor` as written: its predicate tests the negated assertion flag too. */
  function GetEffortsForAsWritten(ag: AgileTodo, date: DateTime): seq<Effort> {
    Keyed.SelectWhere(ag.efforts, (e: Effort) => Keyed.MatchAsWritten(true, DayOf(e.date) == DayOf(date)))
  }

  /** As written the day's list is always empty, even when efforts are logged on that day. */
  lemma GetEffortsForAsWrittenEmpty(ag: AgileTodo, date: DateTime)
    ensures GetEffortsForAsWritten(ag, date) == []
    ensures (exists i :: 0 <= i < |ag.efforts| && DayOf(ag.efforts[i].date) == DayOf(date)) ==> GetEffortsFor(ag, date) != []
  {
    Keyed.SelectWhereNoMatch(ag.efforts, (e: Effort) => Keyed.MatchAsWritten(true, DayOf(e.date) == DayOf(date)));
  }

  /** `findEffortAtSameTime` as written: `!err && tmp.Equal(tmp2)`, where `err` is the assertion's ok flag. */
  function SameDayAsWritten(ef: Effort): Effort -> bool {
    (e: Effort) => Keyed.MatchAsWritten(true, DayOf(e.date) == DayOf(ef.date))
  }

  /**
   As written, the same-day selection is empty, so the gate sees only the
   candidate's own duration and admits it onto a day already full; the
   intended selection adds up the whole day.
   */
  lemma SameDayAsWrittenIgnoresLoggedTime(efs: seq<Effort>, eff: Effort)
    requires 0 <= eff.duration <= DayBudget < DaySum(efs, DayOf(eff.date)) + eff.duration
    ensures Keyed.SelectWhere(efs, SameDayAsWritten(eff)) == []
    ensures FitsInDay(Total(Keyed.SelectWhere(efs, SameDayAsWritten(eff))) + eff.duration)
    ensures !FitsInDay(Total(Keyed.SelectWhere(efs, SameDayAs(eff))) + eff.duration)
  {
    Keyed.SelectWhereNoMatch(efs, SameDayAsWritten(eff));
    SelectedTotal(efs, eff.date);
  }
}
