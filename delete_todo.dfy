/** `DeleteToDoCommand`: its validation rule and its handler, which deletes the row with
    the given key straight from the table. */
module DeleteToDo {
  import opened Common
  import opened Results
  import opened Cqrs
  import opened Domain
  import opened Repository

  /** `record DeleteToDoCommand(Guid Id)`. */
  datatype DeleteToDoCommand = DeleteToDoCommand(id: Guid)

  /** `Validate()`: only the empty identifier is rejected. */
  function Validate(c: DeleteToDoCommand): (v: Verdict)
    ensures v.isValid <==> c.id != EmptyGuid
    ensures v.isValid ==> v.errorMessage == None
    ensures !v.isValid ==> v == Rejected(InvalidGuid)
  {
    if c.id == EmptyGuid then Rejected(InvalidGuid) else Accepted
  }

  /** `DeleteToDoCommandHandler.Handle`: delete by key and answer `NotFound` (with the
      default `false`) when no row was deleted, else `true`. */
  function Handled(w: World, c: DeleteToDoCommand, engine: Engine): (r: (Outcome<Result<bool>>, World))
    ensures r.0.Threw? <==> engine.queryFault.Some?
    ensures r.0.Threw? ==> r.0.exception == engine.queryFault.value && r.1 == w
    ensures r.0.Returned? ==> (r.0.value.IsSuccess() <==> c.id in w.rows)
    ensures r.0.Returned? && r.0.value.IsSuccess() ==> r.0.value.data
    ensures r.0.Returned? && !r.0.value.IsSuccess() ==> r.0.value == Failure(false, NotFound)
    ensures r.0.Returned? ==>
      && r.1.entries == w.entries && r.1.clockReads == w.clockReads
      && c.id !in r.1.rows
      && r.1.rows.Keys == w.rows.Keys - {c.id}
      && (forall k :: k in r.1.rows ==> r.1.rows[k] == w.rows[k])
  {
    var deleted := DeleteRows(w, c.id, engine);
    match deleted.0
    case Threw(e) => (Threw(e), deleted.1)
    case Returned(n) => (Returned(if n == 0 then Failure(false, NotFound) else Success(true)), deleted.1)
  }

  /** Deleting twice: the second request finds nothing and answers `NotFound`, leaving
      the table as the first one left it. */
  lemma SecondDeleteIsNotFound(w: World, c: DeleteToDoCommand, engine: Engine)
    requires engine.queryFault.None?
    ensures var first := Handled(w, c, engine);
            var second := Handled(first.1, c, engine);
            second == (Returned(Failure(false, NotFound)), first.1)
  {
    var first := Handled(w, c, engine);
    var second := Handled(first.1, c, engine);
    assert c.id !in first.1.rows;
    assert first.1.rows - {c.id} == first.1.rows;
  }

  /** The handler class: one repository, one `Handle`. */
  class DeleteToDoCommandHandler {
    const repository: ToDoRepository

    constructor (repository: ToDoRepository)
      ensures this.repository == repository
    {
      this.repository := repository;
    }

    method Handle(c: DeleteToDoCommand, engine: Engine) returns (o: Outcome<Result<bool>>)
      modifies repository.context
      ensures (o, repository.State()) == Handled(old(repository.State()), c, engine)
    {
      var deleted := repository.DeleteAsync(c.id, engine);
      if deleted.Threw? {
        return Threw(deleted.exception);
      }
      o := Returned(if deleted.value == 0 then Failure(false, NotFound) else Success(true));
    }
  }
}
