/** The todos of `internal/model/todo.go`: statuses, priorities, notes and validity. */
module Todos {
  import opened Wrappers
  import opened Dates
  import opened Identity
  import opened Validators
  import Notes
  import Keyed

  /** `TodoStatus`, numbered 0..4 by `iota`. */
  datatype Status = New | Started | Paused | Finished | Done

  function StatusCode(s: Status): (c: nat)
    ensures c <= 4
    ensures c == 0 <==> s == New
    ensures c == 1 <==> s == Started
    ensures c == 2 <==> s == Paused
    ensures c == 3 <==> s == Finished
    ensures c == 4 <==> s == Done
  {
    match s
    case New => 0
    case Started => 1
    case Paused => 2
    case Finished => 3
    case Done => 4
  }

  /** Reads a stored status code back; only 0..4 name a status. */
  function StatusFromCode(c: int): (s: Option<Status>)
    ensures s.Some? <==> 0 <= c <= 4
    ensures s.Some? ==> StatusCode(s.value) == c
  {
    if c == 0 then Some(New)
    else if c == 1 then Some(Started)
    else if c == 2 then Some(Paused)
    else if c == 3 then Some(Finished)
    else if c == 4 then Some(Done)
    else None
  }

  lemma StatusCodeRoundTrip(s: Status)
    ensures StatusFromCode(StatusCode(s)) == Some(s)
  {
    match s
    case New =>
    case Started =>
    case Paused =>
    case Finished =>
    case Done =>
  }

  /** `TodoPriority`, numbered 1..7 by `iota + 1`, from lowest to highest. */
  datatype Priority = Lowest | Lower | Low | Normal | High | Higher | Highest

  function PriorityCode(p: Priority): (c: nat)
    ensures 1 <= c <= 7
    ensures c == 1 <==> p == Lowest
    ensures c == 2 <==> p == Lower
    ensures c == 3 <==> p == Low
    ensures c == 4 <==> p == Normal
    ensures c == 5 <==> p == High
    ensures c == 6 <==> p == Higher
    ensures c == 7 <==> p == Highest
  {
    match p
    case Lowest => 1
    case Lower => 2
    case Low => 3
    case Normal => 4
    case High => 5
    case Higher => 6
    case Highest => 7
  }

  /** Reads a stored priority code back; only 1..7 name a priority. */
  function PriorityFromCode(c: int): (p: Option<Priority>)
    ensures p.Some? <==> 1 <= c <= 7
    ensures p.Some? ==> PriorityCode(p.value) == c
  {
    if c == 1 then Some(Lowest)
    else if c == 2 then Some(Lower)
    else if c == 3 then Some(Low)
    else if c == 4 then Some(Normal)
    else if c == 5 then Some(High)
    else if c == 6 then Some(Higher)
    else if c == 7 then Some(Highest)
    else None
  }

  lemma PriorityCodeRoundTrip(p: Priority)
    ensures PriorityFromCode(PriorityCode(p)) == Some(p)
  {
    match p
    case Lowest =>
    case Lower =>
    case Low =>
    case Normal =>
    case High =>
    case Higher =>
    case Highest =>
  }

  datatype Todo = Todo(
    base: Base,
    name: string,
    description: string,
    status: Status,
    completeDate: DateTime,
    startDate: DateTime,
    priority: Priority,
    notes: seq<Notes.Note>)

  const NameMessage: string := "The name must not be empty"

  function TodoId(t: Todo): Uuid {
    t.base.id
  }

  /** The todo invariant: no two notes share an ID. */
  ghost predicate WellFormed(t: Todo) {
    Keyed.Unique(t.notes, Notes.NoteId)
  }

  /** A new todo: the given name, empty description, status New, priority Normal, no dates set, no notes. */
  function NewTodo(base: Base, name: string): (t: Todo)
    ensures t.base == base && t.name == name && t.description == ""
    ensures StatusCode(t.status) == 0 && PriorityCode(t.priority) == 4
    ensures IsZero(t.completeDate) && IsZero(t.startDate)
    ensures t.notes == [] && WellFormed(t)
  {
    Todo(base, name, "", New, ZeroDate, ZeroDate, Normal, [])
  }

  function HasNote(t: Todo, id: Uuid): (b: bool)
    ensures b <==> exists i :: 0 <= i < |t.notes| && t.notes[i].base.id == id
  {
    Keyed.Has(t.notes, Notes.NoteId, id)
  }

  /** Appends the note unless one with its ID is attached; afterwards the ID is attached. */
  function AddNote(t: Todo, n: Notes.Note): (r: Todo)
    ensures HasNote(t, n.base.id) ==> r == t
    ensures !HasNote(t, n.base.id) ==> r == t.(notes := t.notes + [n])
    ensures HasNote(r, n.base.id)
    ensures WellFormed(t) ==> WellFormed(r)
  {
    t.(notes := Keyed.Add(t.notes, n, Notes.NoteId))
  }

  /** Detaches the note with that ID, keeping the order of the others; a no-op when it is absent. */
  function RemoveNote(t: Todo, id: Uuid): (r: Todo)
    ensures !HasNote(t, id) ==> r == t
    ensures HasNote(t, id) ==>
              exists i :: 0 <= i < |t.notes| && t.notes[i].base.id == id && (forall j :: 0 <= j < i ==> t.notes[j].base.id != id)
                       && r == t.(notes := t.notes[..i] + t.notes[i + 1..])
    ensures forall other :: other != id ==> (HasNote(r, other) <==> HasNote(t, other))
    ensures WellFormed(t) ==> WellFormed(r) && !HasNote(r, id)
  {
    t.(notes := Keyed.Remove(t.notes, Notes.NoteId, id))
  }

  /** Only the name is required. */
  function Validate(t: Todo): (r: Option<CombinedError>)
    ensures r == None <==> t.name != ""
    ensures r.Some? ==> r.value.messages == [NameMessage]
  {
    var v := RequireNonEmpty(NewValidator(), t.name, NameMessage);
    AllValid(v)
  }

  /** Validity depends on the name alone: two todos with the same name are equally valid. */
  lemma ValidateDependsOnNameOnly(t: Todo, u: Todo)
    requires t.name == u.name
    ensures Validate(t) == Validate(u)
  {
  }
}
