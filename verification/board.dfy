/** The boards of `internal/model/board.go`: containers of todos. */
module Boards {
  import opened Wrappers
  import opened Identity
  import opened Ints
  import opened Validators
  import Todos
  import Keyed

  /** `color.RGBA`: four 8-bit channels. */
  datatype Rgba = Rgba(r: uint8, g: uint8, b: uint8, a: uint8)

  datatype Board = Board(base: Base, name: string, description: string, colour: Rgba, todos: seq<Todos.Todo>)

  const NameMessage: string := "The board name must not be empty"

  /** The board invariant: no two todos share an ID. */
  ghost predicate WellFormed(b: Board) {
    Keyed.Unique(b.todos, Todos.TodoId)
  }

  /** A new board: the given name and colour, no description, no todos. */
  function NewBoard(base: Base, name: string, colour: Rgba): (b: Board)
    ensures b.base == base && b.name == name && b.colour == colour
    ensures b.description == "" && b.todos == [] && WellFormed(b)
  {
    Board(base, name, "", colour, [])
  }

  function HasTodo(b: Board, id: Uuid): (present: bool)
    ensures present <==> exists i :: 0 <= i < |b.todos| && b.todos[i].base.id == id
  {
    Keyed.Has(b.todos, Todos.TodoId, id)
  }

  /** Appends the todo unless one with its ID is on the board; afterwards the ID is on the board. */
  function AddTodo(b: Board, t: Todos.Todo): (r: Board)
    ensures HasTodo(b, t.base.id) ==> r == b
    ensures !HasTodo(b, t.base.id) ==> r == b.(todos := b.todos + [t])
    ensures HasTodo(r, t.base.id)
    ensures WellFormed(b) ==> WellFormed(r)
  {
    b.(todos := Keyed.Add(b.todos, t, Todos.TodoId))
  }

  /** Takes the todo with that ID off the board, keeping the order of the others; a no-op when it is absent. */
  function RemoveTodo(b: Board, id: Uuid): (r: Board)
    ensures !HasTodo(b, id) ==> r == b
    ensures HasTodo(b, id) ==>
              exists i :: 0 <= i < |b.todos| && b.todos[i].base.id == id && (forall j :: 0 <= j < i ==> b.todos[j].base.id != id)
                       && r == b.(todos := b.todos[..i] + b.todos[i + 1..])
    ensures forall other :: other != id ==> (HasTodo(r, other) <==> HasTodo(b, other))
    ensures WellFormed(b) ==> WellFormed(r) && !HasTodo(r, id)
  {
    b.(todos := Keyed.Remove(b.todos, Todos.TodoId, id))
  }

  /** Only the name is required; description and colour play no part. */
  function Validate(b: Board): (r: Option<CombinedError>)
    ensures r == None <==> b.name != ""
    ensures r.Some? ==> r.value.messages == [NameMessage]
  {
    var v := RequireNonEmpty(NewValidator(), b.name, NameMessage);
    AllValid(v)
  }

  /** Validity depends on the name alone, not on description, colour or todos. */
  lemma ValidateDependsOnNameOnly(b: Board, c: Board)
    requires b.name == c.name
    ensures Validate(b) == Validate(c)
  {
  }

  /** Adding the same todo twice leaves one copy on the board. */
  lemma AddTodoTwice(b: Board, t: Todos.Todo)
    requires b.todos == []
    ensures AddTodo(AddTodo(b, t), t).todos == [t]
  {
    assert AddTodo(b, t).todos == [t];
  }

  // ---------------------------------------------------------------------
  // The Go code as written

  /**
   `AddTodo` as written: inside the predicate `t` is re-declared as the list
   element, so the ID test compares the element with itself, and it is
   guarded by the negated assertion flag as well.
   */
  function AddTodoAsWritten(b: Board, t: Todos.Todo): Board {
    var found := Keyed.FindWhere(b.todos, (x: Todos.Todo) => Keyed.MatchAsWritten(true, Todos.TodoId(x) == Todos.TodoId(x)));
    if found.None? then b.(todos := b.todos + [t]) else b
  }

  /** As written, every call appends, whatever the board already holds. */
  lemma AddTodoAsWrittenAlwaysAppends(b: Board, t: Todos.Todo)
    ensures AddTodoAsWritten(b, t).todos == b.todos + [t]
  {
  }

  /** As written, adding the same todo twice puts two copies on the board. */
  lemma AddTodoAsWrittenDuplicates(b: Board, t: Todos.Todo)
    requires b.todos == []
    ensures AddTodoAsWritten(AddTodoAsWritten(b, t), t).todos == [t, t]
    ensures !WellFormed(AddTodoAsWritten(AddTodoAsWritten(b, t), t))
  {
    var twice := AddTodoAsWritten(AddTodoAsWritten(b, t), t);
    assert twice.todos[0] == twice.todos[1];
  }

  /** `AddTodo` with the assertion flag corrected but the shadowed comparison kept: every element matches. */
  function AddTodoShadowed(b: Board, t: Todos.Todo): Board {
    var found := Keyed.FindWhere(b.todos, (x: Todos.Todo) => Todos.TodoId(x) == Todos.TodoId(x));
    if found.None? then b.(todos := b.todos + [t]) else b
  }

  /** Even with the flag corrected, the shadowing drops every todo added to a non-empty board, fresh ID or not. */
  lemma AddTodoShadowedDropsFresh(b: Board, t: Todos.Todo)
    requires b.todos != [] && !HasTodo(b, t.base.id)
    ensures AddTodoShadowed(b, t) == b
    ensures AddTodo(b, t).todos == b.todos + [t]
  {
  }
}
