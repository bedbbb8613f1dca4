/** The notes of `internal/model/note.go`. */
module Notes {
  import opened Wrappers
  import opened Identity
  import opened Validators

  datatype Note = Note(base: Base, name: string, description: string, author: string)

  const AuthorMessage: string := "The author must not be empty"
  const NameMessage: string := "The name must not be empty"

  function NoteId(n: Note): Uuid {
    n.base.id
  }

  function NewNote(base: Base, name: string, author: string): (n: Note)
    ensures n.base == base && n.name == name && n.author == author
    ensures n.description == ""
  {
    Note(base, name, "", author)
  }

  /** Author and name are both required; the author's message comes first. */
  function Validate(n: Note): (r: Option<CombinedError>)
    ensures r == None <==> n.author != "" && n.name != ""
    ensures n.author == "" && n.name == "" ==> r == Some(CombinedError([AuthorMessage, NameMessage]))
    ensures n.author == "" && n.name != "" ==> r == Some(CombinedError([AuthorMessage]))
    ensures n.author != "" && n.name == "" ==> r == Some(CombinedError([NameMessage]))
  {
    var v := RequireNonEmpty(NewValidator(), n.author, AuthorMessage);
    var v := RequireNonEmpty(v, n.name, NameMessage);
    assert n.author == "" && n.name == "" ==> v.errors == [AuthorMessage, NameMessage];
    assert n.author == "" && n.name != "" ==> v.errors == [AuthorMessage];
    assert n.author != "" && n.name == "" ==> v.errors == [NameMessage];
    AllValid(v)
  }

  /** The description plays no part in validity. */
  lemma ValidateIgnoresDescription(n: Note, description: string)
    ensures Validate(n.(description := description)) == Validate(n)
  {
  }
}
