/** `GetToDoQuery`: its validation rule and its handler, which reads one to-do without
    tracking it. */
module GetToDo {
  import opened Common
  import opened Results
  import opened Cqrs
  import opened Domain
  import opened Repository

  /** `record GetToDoQuery(Guid Id)`. */
  datatype GetToDoQuery = GetToDoQuery(id: Guid)

  /** `Validate()`: only the empty identifier is rejected. */
  function Validate(q: GetToDoQuery): (v: Verdict)
    ensures v.isValid <==> q.id != EmptyGuid
    ensures v.isValid ==> v.errorMessage == None
    ensures !v.isValid ==> v == Rejected(InvalidGuid)
  {
    if q.id == EmptyGuid then Rejected(InvalidGuid) else Accepted
  }

  /** `GetToDoQueryHandler.Handle`: the stored row as a response, or `NotFound` (with
      the default `null`). A query changes nothing. */
  function Handled(w: World, q: GetToDoQuery, engine: Engine): (r: Outcome<Result<Option<ToDoResponse>>>)
    ensures r.Threw? <==> engine.queryFault.Some?
    ensures r.Threw? ==> r.exception == engine.queryFault.value
    ensures r.Returned? ==> (r.value.IsSuccess() <==> q.id in w.rows)
    ensures r.Returned? && q.id in w.rows ==> r.value.data == Some(Adapt(w.rows[q.id]))
    ensures r.Returned? && q.id !in w.rows ==> r.value == Failure(None, NotFound)
  {
    match FindRow(w, q.id, engine)
    case Threw(e) => Threw(e)
    case Returned(None) => Returned(Failure(None, NotFound))
    case Returned(Some(entity)) => Returned(Success(Some(Adapt(entity))))
  }

  /** The handler class: one repository, one `Handle`. */
  class GetToDoQueryHandler {
    const repository: ToDoRepository

    constructor (repository: ToDoRepository)
      ensures this.repository == repository
    {
      this.repository := repository;
    }

    method Handle(q: GetToDoQuery, engine: Engine) returns (o: Outcome<Result<Option<ToDoResponse>>>)
      ensures o == Handled(repository.State(), q, engine)
    {
      var found := repository.GetByIdAsNoTrackingAsync(q.id, engine);
      if found.Threw? {
        return Threw(found.exception);
      }
      if found.value.None? {
        return Returned(Failure(None, NotFound));
      }
      o := Returned(Success(Some(Adapt(found.value.value))));
    }
  }
}
