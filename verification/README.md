# todomngr domain layer in Dafny

This project models the in-memory domain layer of todomngr, a personal task tracker written in Go. It covers boards that hold todos, todos that hold notes, and agile todos that log effort records. Under these sit two reusable parts: an accumulating field validator and an ID-keyed ordered collection.

The model is functional. Every entity is an immutable datatype. Every Go method that mutates its receiver becomes a function that returns the updated value.

- `Validators` (validator.dfy) models `internal/utils/validator.go`. A validator is the list of failure messages recorded so far. Each helper reduces to `Check`, which records its message exactly when its condition fails. `AllValid` turns the list into one combined error, or into nil when the list is empty.
- `Keyed` (keyed.dfy) models the collection discipline shared by `Index.Items`, `Todo.Notes`, `Board.Todos` and `AgileTodo.Effort`. A collection is a `seq<T>` read through a key function. Add inserts only when the key is absent, Remove deletes the first match, and Has tests membership. The per-entity operations instantiate it.
- `Indexes`, `Notes`, `Efforts`, `Todos`, `Agile` and `Boards` model the entities of `internal/model/`. `Agile` holds the effort ledger: `AddEffort` attaches an effort only if its calendar day then carries at most 24 hours. That bound includes 24 hours exactly.
- `Dates` measures instants in nanoseconds from Go's zero time. `DayOf` is the UTC calendar day that contains an instant, and it stands in for gostradamus' `CeilDay`. `Identity` holds the caller-supplied IDs and creation dates. `Ints` holds Go's fixed-width integer ranges (`uint8`, `uint32`, `int64`) and the integer kinds the validator switches on.

The Go code differs from its doc comments in several places, and the "## Findings" section lists each case. For each one, the model has a member for the code as it stands and a member for the documented behaviour, and a lemma shows how the two differ. The naming depends on the part of the model:

- Collection lookups, boards and the effort ledger: the unsuffixed member is the documented behaviour (`Keyed.Add`, `Boards.AddTodo`, `Agile.AddEffort`, `Agile.SameDayAs`, `Agile.GetEffortsFor`). The member ending in `AsWritten` is the code. One example: every lookup predicate negates the type-assertion ok flag, so it never matches.
- `Boards.AddTodoShadowed` is a half-corrected variant. It corrects the ok flag only and keeps the shadowed comparison.
- Validator: `IsNotEmpty` and `IsPresent` are the code as written, under their Go names. `RequireNonEmpty` and `IsPresentPointer` are the documented checks.

## Model

| member | source | states |
|---|---|---|
| Validators.NewValidator | internal/utils/validator.go:34-39 | a fresh validator has recorded nothing |
| Validators.Check | internal/utils/validator.go:41-46 | the list is unchanged when the condition holds; otherwise exactly the message is appended at the end |
| Validators.ChecksNeverShortCircuit | internal/utils/validator.go:41-46 | after any sequence of checks, the list is the earlier list followed by exactly the failed messages, in call order |
| Validators.IsPresent | internal/utils/validator.go:48-51 | records exactly when the field is nil |
| Validators.IsNotPresent | internal/utils/validator.go:53-56 | records exactly when the field is not nil |
| Validators.TypedNilCountsAsPresent | internal/utils/validator.go:48-56 | a typed nil pointer passed as `any` is not the nil interface: IsPresent records nothing, IsNotPresent records, and the pointer-aware check records it as missing |
| Validators.IsPresentPointer | internal/utils/validator.go:48-51 | the presence check the doc comment describes for a pointer field: records on the nil interface and on a typed nil pointer |
| Validators.Len32 | internal/utils/validator.go:137 | `uint32(len(s))` equals the length for strings under 2^32 bytes, and is 0 exactly when the length is a multiple of 2^32 |
| Validators.IsSize | internal/utils/validator.go:120-123 | records exactly when the 32-bit length differs from `size`; below 2^32 bytes, when the length differs |
| Validators.IsNotEmpty | internal/utils/validator.go:125-128 | records exactly when the length is a multiple of 2^32; below 2^32 bytes, exactly when it is 0 |
| Validators.IsEmpty | internal/utils/validator.go:130-133 | records exactly when the length is not a multiple of 2^32; below 2^32 bytes, exactly when it is not 0 |
| Validators.EmptyChecksComplement | internal/utils/validator.go:125-133 | on any string exactly one of IsEmpty and IsNotEmpty records |
| Validators.IsBetween | internal/utils/validator.go:135-139 | records exactly when the 32-bit length lies outside the inclusive range [min, max] |
| Validators.RequireNonEmpty | internal/utils/validator.go:125-128 | the intended non-emptiness check records exactly on the empty string |
| Validators.IsNotEmptyWrapsAtLen32 | internal/utils/validator.go:127 | a string of 2^32 bytes is recorded as empty by IsNotEmpty and accepted by RequireNonEmpty |
| Validators.IsGreaterThan | internal/utils/validator.go:147-175 | for two integers of the same kind, records exactly when field <= min (strict comparison) |
| Validators.IsLessThan | internal/utils/validator.go:177-205 | for two integers of the same kind, records exactly when field >= max (strict comparison) |
| Validators.IsBetweenNumbers | internal/utils/validator.go:207-235 | records exactly when the field lies outside [min, max]; both ends pass |
| Validators.IsNegative | internal/utils/validator.go:237-255 | a signed field records exactly when it is 0 or more; unsigned kinds never record |
| Validators.IsPositive | internal/utils/validator.go:257-276 | a signed field records exactly when it is 0 or less; unsigned kinds never record |
| Validators.IsPort | internal/utils/validator.go:278-297 | records exactly when the value lies outside 0..65535; int8, int16 and uint8 never record |
| Validators.IsDateDefined | internal/utils/validator.go:299-307 | records exactly when the date is Go's zero time |
| Validators.IsDateBefore | internal/utils/validator.go:309-317 | records unless the field is strictly earlier than the bound |
| Validators.IsDateAfter | internal/utils/validator.go:319-327 | records unless the field is strictly later than the bound |
| Validators.EqualDatesFailBothComparisons | internal/utils/validator.go:309-327 | equal dates fail both the before check and the after check |
| Validators.HasErrors | internal/utils/validator.go:329-332 | true exactly when some message was recorded |
| Validators.ErrorNumber | internal/utils/validator.go:334-337 | the number of recorded messages, zero exactly when HasErrors is false |
| Validators.AllValid | internal/utils/validator.go:339-349 | nil exactly when nothing was recorded; otherwise one error that carries every recorded message, in order |
| Validators.NonNilOfErrorSlice | internal/utils/validator.go:342-346 | the nil slots that `make` leaves before the appended errors never reach the combined error |
| Validators.ReportsOfAPass | internal/utils/validator.go:329-349 | after a pass, ErrorNumber is the number of failed checks, HasErrors holds exactly when that number is positive, and AllValid carries the failed messages |
| Validators.ThreeChecksTwoFailing | internal/utils/validator.go:329-349 | three checks, two of them failing, give two errors combined in check order |
| Keyed.FindWhere | internal/model/index.go:36-42 | the list's Find returns the first index whose element satisfies the predicate, and nothing exactly when no element does |
| Keyed.AnyWhere | internal/model/index.go:64-70 | the list's Any holds exactly when some element satisfies the predicate |
| Keyed.SelectWhere | internal/model/todo.go:229-237 | the list's Select keeps exactly the elements that satisfy the predicate |
| Keyed.SelectAppend | internal/model/todo.go:229-237 | selection keeps insertion order: an appended element that matches comes last |
| Keyed.SelectWhereNoMatch | internal/model/todo.go:229-237 | nothing is selected when no element matches |
| Keyed.Find | internal/model/index.go:50-56 | returns the position of the first element with the key, and nothing exactly when the key is absent |
| Keyed.Has | internal/model/index.go:62-71 | true exactly when some element carries the key |
| Keyed.AppendAbsentKeepsUnique | internal/model/index.go:43-45 | appending an element whose key is absent keeps keys unique |
| Keyed.Add | internal/model/index.go:34-46 | appends at the end exactly when the key is absent, so the first write wins; afterwards the key is present, other keys are unchanged, and uniqueness is kept |
| Keyed.AddDistinctKeepsOrder | internal/model/index.go:34-46 | adding elements whose keys are fresh and distinct yields the list followed by those elements, in the order they were added |
| Keyed.RemoveAt | internal/model/index.go:57-59 | the list's Remove(index) deletes that position and shifts the later ones down; an index out of range changes nothing |
| Keyed.Remove | internal/model/index.go:48-60 | deletes the first element with the key and keeps the others in order; does nothing when the key is absent; keeps other keys' presence and uniqueness; on a unique list the key is gone afterwards |
| Keyed.RemoveAtKeepsOthers | internal/model/index.go:48-60 | deleting one position keeps every other key present and keeps a unique list unique |
| Keyed.LookupsAsWrittenNeverMatch | internal/model/index.go:37-38 | with the negated ok flag the lookups never match: Has is false, Add always appends, Remove changes nothing |
| Keyed.FindAsWritten | internal/model/index.go:36-42 | the lookup with the `!err && …` predicate, where `err` is the type assertion's ok flag (properties in LookupsAsWrittenNeverMatch) |
| Keyed.HasAsWritten | internal/model/index.go:63-70 | the membership test with the same predicate |
| Keyed.AddAsWritten | internal/model/index.go:35-46 | add-if-not-found with the same predicate |
| Keyed.RemoveAsWritten | internal/model/index.go:49-60 | remove-first-found with the same predicate |
| Keyed.AddAsWrittenDuplicates | internal/model/index.go:35-46 | as written, re-adding a present ID duplicates it; the intended Add leaves the list unchanged |
| Indexes.NewItem | internal/model/index.go:14-20 | stores exactly the given ID and name |
| Indexes.NewIndex | internal/model/index.go:27-32 | a new index is empty, well formed, and has no ID |
| Indexes.HasItem | internal/model/index.go:62-71 | true exactly when some item has the ID |
| Indexes.AddItem | internal/model/index.go:34-46 | appends the item exactly when its ID is absent; afterwards the ID is present; unique IDs are kept |
| Indexes.RemoveItem | internal/model/index.go:48-60 | deletes the first item with the ID and keeps the others in order; does nothing when the ID is absent; other IDs are unaffected; on a well-formed index the ID is gone |
| Indexes.RemoveFromEmptyIndex | internal/model/index.go:48-60 | removing any ID from a new index leaves it empty |
| Notes.NewNote | internal/model/note.go:31-39 | stores the given base, name and author, with an empty description |
| Notes.Validate | internal/model/note.go:53-59 | nil exactly when author and name are both non-empty; otherwise the failing fields' messages, the author's first |
| Notes.ValidateIgnoresDescription | internal/model/note.go:53-59 | the description never affects validity |
| Efforts.NewEffort | internal/model/effort.go:34-43 | stores the given ID, date and duration, with an empty description |
| Efforts.Validate | internal/model/effort.go:55-61 | nil exactly when the date is non-zero and the duration is strictly positive; otherwise the date message and then the duration message, for those that fail |
| Efforts.BothFailuresInOrder | internal/model/effort.go:58-60 | a zero date with a duration of 0 or less gives two errors, the date's first |
| Efforts.ValidateIgnoresDescription | internal/model/effort.go:55-61 | the description never affects validity |
| Todos.StatusCode | internal/model/todo.go:114-128 | status codes lie in 0..4 and follow declaration order: New 0, Started 1, Paused 2, Finished 3, Done 4 |
| Todos.StatusFromCode | internal/model/todo.go:114-128 | exactly the codes 0..4 name a status, and each names the status with that code |
| Todos.StatusCodeRoundTrip | internal/model/todo.go:114-128 | reading back a status's code gives the same status |
| Todos.PriorityCode | internal/model/todo.go:130-148 | priority codes lie in 1..7 and rise from Lowest 1 through Normal 4 to Highest 7 |
| Todos.PriorityFromCode | internal/model/todo.go:130-148 | exactly the codes 1..7 name a priority, and each names the priority with that code |
| Todos.PriorityCodeRoundTrip | internal/model/todo.go:130-148 | reading back a priority's code gives the same priority |
| Todos.NewTodo | internal/model/todo.go:39-49 | the given name, an empty description, status code 0, priority code 4, no dates set and no notes |
| Todos.HasNote | internal/model/todo.go:79-88 | true exactly when some attached note has the ID |
| Todos.AddNote | internal/model/todo.go:51-63 | attaches the note exactly when its ID is absent; afterwards the ID is present; unique IDs are kept |
| Todos.RemoveNote | internal/model/todo.go:65-77 | detaches the first note with the ID and keeps the others in order; does nothing when the ID is absent; on a well-formed todo the ID is gone |
| Todos.Validate | internal/model/todo.go:107-112 | nil exactly when the name is non-empty; otherwise only the name message |
| Todos.ValidateDependsOnNameOnly | internal/model/todo.go:107-112 | todos with equal names are equally valid |
| Agile.NewAgileTodo | internal/model/todo.go:158-165 | a new todo with the given name, zero points, no estimate and no effort; the ledger invariant holds |
| Agile.HasEffort | internal/model/todo.go:214-223 | true exactly when some attached effort has the ID |
| Agile.RemoveEffort | internal/model/todo.go:200-212 | detaches the first effort with the ID and keeps the others in order; does nothing when the ID is absent; keeps the daily budget when no attached duration is negative |
| Agile.GetEffortsFor | internal/model/todo.go:225-239 | returns exactly the attached efforts dated on the given calendar day; their durations add up to that day's sum |
| Agile.GetEffortsForInsertionOrder | internal/model/todo.go:225-239 | the day's list follows insertion order: a later effort on that day is listed after the earlier ones |
| Agile.SameDayAs | internal/model/todo.go:241-251 | the intended `findEffortAtSameTime`: matches exactly the efforts on the candidate's calendar day |
| Agile.FitsInDay | internal/model/todo.go:180-189 | the gate "midnight Jan 1 plus the logged time is not after midnight Jan 2" admits exactly totals of at most 24 hours |
| Agile.AddEffort | internal/model/todo.go:167-198 | accepts exactly when the ID is absent and the day's sum plus the new duration is at most 24 hours; an accepted effort is appended at the end; a refusal changes nothing; unique IDs and the daily budget are kept |
| Agile.DaySumAppend | internal/model/todo.go:179-186 | appending an effort adds its duration to its own day's sum and to no other day |
| Agile.SelectedTotal | internal/model/todo.go:181-186 | summing the same-day efforts gives the day sum |
| Agile.AppendKeepsBudget | internal/model/todo.go:188-191 | an effort admitted by the gate keeps every day within 24 hours |
| Agile.DaySumRemoveAt | internal/model/todo.go:200-212 | detaching an effort takes its duration off its own day and leaves other days alone |
| Agile.RemoveKeepsBudget | internal/model/todo.go:200-212 | with no negative durations, detaching an effort keeps every day within 24 hours |
| Agile.DailyCapScenario | internal/model/todo.go:167-239 | on one day, two 10-hour efforts are accepted, a 5-hour third is refused, and the day lists exactly the first two |
| Agile.RemovingNegativeEffortBreaksBudget | internal/model/todo.go:200-212 | efforts of -1h and then 25h are both accepted, and detaching the first leaves 25 hours on that day |
| Agile.Validate | internal/model/todo.go:272-277 | nil exactly when the name is non-empty; otherwise only the name message |
| Agile.ValidateAgreesWithTodo | internal/model/todo.go:272-277 | an agile todo is valid exactly when its embedded todo is |
| Agile.AddEffortAsWritten | internal/model/todo.go:168-177 | the Go `AddEffort`: a lookup that never matches, then a type assertion on the nil not-found value (properties in AddEffortAsWrittenPanics) |
| Agile.AddEffortAsWrittenPanics | internal/model/todo.go:176-177 | as written, every call panics on the nil not-found value; the intended AddEffort accepts an effort that fits |
| Agile.FitsInDayAsWritten | internal/model/todo.go:180-189 | the Go gate with the results of `t.Add` discarded (properties in GateAsWrittenAdmitsOverBudget) |
| Agile.GateAsWrittenAdmitsOverBudget | internal/model/todo.go:180-189 | with the sums discarded, the as-written gate admits a day over 24 hours that the intended gate refuses |
| Agile.GetEffortsForAsWritten | internal/model/todo.go:229-234 | the Go selection with the `!err && …` test (properties in GetEffortsForAsWrittenEmpty) |
| Agile.GetEffortsForAsWrittenEmpty | internal/model/todo.go:229-234 | as written, the day's list is always empty, while the intended list is non-empty whenever an effort is on that day |
| Agile.SameDayAsWritten | internal/model/todo.go:243-246 | the Go `findEffortAtSameTime`, whose date test is guarded by the negated ok flag |
| Agile.SameDayAsWrittenIgnoresLoggedTime | internal/model/todo.go:243-246 | as written, the same-day selection is empty, so the gate admits a candidate onto a day it would push past 24 hours; the intended selection refuses it |
| Boards.NewBoard | internal/model/board.go:36-44 | stores the given name and colour, with an empty description and no todos |
| Boards.HasTodo | internal/model/board.go:85-94 | true exactly when some todo on the board has the ID |
| Boards.AddTodo | internal/model/board.go:57-69 | adds the todo exactly when its ID is absent; afterwards the ID is present; unique IDs are kept |
| Boards.AddTodoTwice | internal/model/board.go:57-69 | adding the same todo twice to an empty board leaves one copy |
| Boards.RemoveTodo | internal/model/board.go:71-83 | takes off the first todo with the ID and keeps the others in order; does nothing when the ID is absent; on a well-formed board the ID is gone |
| Boards.Validate | internal/model/board.go:96-101 | nil exactly when the name is non-empty; otherwise only the board-name message |
| Boards.ValidateDependsOnNameOnly | internal/model/board.go:96-101 | description, colour and todos never affect validity |
| Boards.AddTodoAsWritten | internal/model/board.go:57-69 | the Go `AddTodo`: a shadowed comparison guarded by the negated ok flag (properties in AddTodoAsWrittenDuplicates) |
| Boards.AddTodoShadowed | internal/model/board.go:57-69 | `AddTodo` with the ok flag corrected but the shadowed `t.ID == t.ID` kept (properties in AddTodoShadowedDropsFresh) |
| Boards.AddTodoAsWrittenAlwaysAppends | internal/model/board.go:57-69 | as written, every call appends the todo, whatever the board already holds |
| Boards.AddTodoAsWrittenDuplicates | internal/model/board.go:59-67 | as written, adding the same todo twice puts two copies on the board, and its IDs are no longer unique |
| Boards.AddTodoShadowedDropsFresh | internal/model/board.go:60-61 | with only the ok flag corrected, the shadowed comparison drops a fresh todo added to a non-empty board; the intended AddTodo appends it |
| Dates.DayOf | internal/model/todo.go:244-245 | the calendar day of an instant is the 24-hour window that contains it |

## Left out

- `internal/utils/message.go` is not part of this model. It does coloured console printing and keeps a global debug flag. This is pure I/O.
- `newBaseModel` in `internal/model/base.go` is left out. It draws a version-1 UUID and reads the wall clock. IDs and creation dates are parameters here, so every constructor takes a `Base` or a `Uuid`.
- `NewEffort` takes its ID as a parameter for the same reason. The Go code draws it inside `NewEffort`.
- The `String()` methods and `ColourToString` are left out: they are display formatting. `NewBoard2` is also left out. It parses a colour with `Sscanf`, and because it passes values rather than pointers, the parsed colour is never stored.
- The regex- and library-backed validators are not modelled: `IsAlphaNumeric`, `IsBase64`, `IsLowercase`, `IsUppercase`, `IsEmail`, `IsGUID`, `IsCreditCard`, `IsDomain`, `IsHostname`, `IsIP`, `IsStdDate`, `IsDuration` and `IsURL`. Their verdict comes from a regex engine or a foreign package. Each is `Check` applied to a boolean the model cannot compute, and `Check` is modelled.
- The float branches of the numeric helpers are left out. So are the panics when the field and bound kinds differ, which is why `IsGreaterThan`, `IsLessThan` and `IsBetweenNumbers` require equal kinds. Field types outside the switches fall through in Go and record nothing; they are not modelled.
- Time zones and the calendar arithmetic of `CeilDay` are left out. `DayOf` is the UTC day counted from Go's zero time. The `time.Time` and `DateTime` branches of the date helpers behave the same, so they are modelled once.
- Reference semantics are not modelled. Boards, todos, agile todos and indexes hold pointers (`*Todo`, `*Note`, `*Effort`, `*Item`), and the model stores values instead. In Go, a caller that changes an attached effort's `Duration` or `Date` can push a day past 24 hours. A caller that changes an attached item's, note's or todo's `ID` can break ID uniqueness. The model keeps the daily budget and uniqueness only because it copies values.
- `TodoStatus` and `TodoPriority` are `uint8`, so Go can hold codes outside the named constants. The model's enums cannot. `StatusFromCode` and `PriorityFromCode` return nothing for such codes.
- `Validators.AllValid`: the combined error is represented by its list of messages. Whether `errors.Combine` hands back a single error or a multi-error is not modelled.
- Strings are `seq<char>`. Go's `len` counts bytes, and the model counts sequence elements.
- The sums of durations are unbounded integers. They are accumulated with `time.Time.Add`, which does not wrap at realistic magnitudes.
- JSON tags, serialisation and the linked-list internals of the gods library are left out. Collections are sequences.

## Findings

| source | as written | input that shows it | evidently intended | confidence | as-written member | corrected member |
|---|---|---|---|---|---|---|
| internal/model/index.go:37-38 | each lookup predicate tests `!err`, where `err` is the type assertion's ok flag; the same pattern is at index.go:51, 65, todo.go:54, 68, 82, 170, 203, 217 and board.go:60, 74, 88 (todo.go:230 and 246 have their own rows) | an index that holds item x, then `AddItem(x)` | match an element whose ID equals the one sought | high; not executed | Keyed.AddAsWrittenDuplicates | Keyed.Add |
| internal/model/board.go:60-61 | the predicate re-declares `t` as the list element, so it compares `t.ID == t.ID` | a board with one todo, then `AddTodo` of a todo with a new ID, once the ok flag is corrected | compare the element's ID with the argument's ID | high; not executed | Boards.AddTodoShadowedDropsFresh | Boards.AddTodo |
| internal/model/todo.go:176-177 | on the not-found branch, `found.(*Effort)` asserts a nil interface value, which panics | any agile todo and an effort not yet attached | continue with the candidate effort | high; not executed | Agile.AddEffortAsWrittenPanics | Agile.AddEffort |
| internal/model/todo.go:184-189 | the results of `t.Add` are discarded, so `t` stays at Jan 1 and the gate admits everything; the defect is latent, because the panic at :177 comes first | once :176-177 and :246 are corrected: 10h and 10h logged on one day, then a 5h candidate | refuse when the day's total would exceed 24 hours | high; not executed | Agile.GateAsWrittenAdmitsOverBudget | Agile.AddEffort |
| internal/model/todo.go:243-246 | `findEffortAtSameTime` tests `!err && tmp.Equal(tmp2)`, so it selects nothing and the gate sees only the candidate's own duration; latent behind the panic at :177 | once :176-177 and :184-186 are corrected: 20h logged on one day, then a 5h candidate | select the efforts on the candidate's day | high; not executed | Agile.SameDayAsWrittenIgnoresLoggedTime | Agile.SameDayAs |
| internal/model/todo.go:230-231 | the `GetEffortsFor` predicate tests `!err` as well, so nothing is ever selected | an agile todo with one effort on the requested day | return the efforts dated on that day | high; not executed | Agile.GetEffortsForAsWrittenEmpty | Agile.GetEffortsFor |
| internal/utils/validator.go:127 | `uint32(len(field))` keeps the length modulo 2^32, so a 4 GiB string counts as empty; `IsSize`, `IsEmpty` and `IsBetween` share the truncation | a name of exactly 2^32 bytes | record only a genuinely empty string | low (needs a 4 GiB string); not executed | Validators.IsNotEmptyWrapsAtLen32 | Validators.RequireNonEmpty |
| internal/utils/validator.go:49-51 | `field != nil` on an `any` is false only for the untyped nil interface; a typed nil pointer is not nil there, so it passes | `IsPresent((*Note)(nil), msg)` records nothing | record a nil pointer as missing, as the doc comment says | medium (a well-known Go pitfall, but no caller passes a pointer); not executed | Validators.TypedNilCountsAsPresent | Validators.IsPresentPointer |

The entity validators (`Notes.Validate`, `Todos.Validate`, `Agile.Validate`, `Boards.Validate`) use the corrected `RequireNonEmpty`. The collection operations use the corrected lookups.
