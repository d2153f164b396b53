/** The five requests as one sum, with what the decorators need of them: the type name,
    `Validate()`, the failure value of the request's result type, and the undecorated
    handler that the container resolves for each. */
module Requests {
  import opened Common
  import opened Results
  import opened Cqrs
  import opened Domain
  import opened Repository
  import CreateToDo
  import UpdateToDo
  import DeleteToDo
  import GetToDo
  import GetAllToDos

  /** A command or query sent to its handler. */
  datatype Request =
    | Create(create: CreateToDo.CreateToDoCommand)
    | Update(update: UpdateToDo.UpdateToDoCommand)
    | Delete(delete: DeleteToDo.DeleteToDoCommand)
    | Get(get: GetToDo.GetToDoQuery)
    | GetAll(getAll: GetAllToDos.GetAllToDosQuery)
  {
    /** Whether it goes through the `IQueryHandler` decorators rather than the
        `ICommandHandler` ones. */
    predicate IsQuery() {
      Get? || GetAll?
    }
  }

  /** `typeof(TRequest).Name`. */
  function TypeName(r: Request): (name: string)
    ensures r.Create? ==> name == "CreateToDoCommand"
    ensures r.Update? ==> name == "UpdateToDoCommand"
    ensures r.Delete? ==> name == "DeleteToDoCommand"
    ensures r.Get? ==> name == "GetToDoQuery"
    ensures r.GetAll? ==> name == "GetAllToDosQuery"
  {
    match r
    case Create(_) => "CreateToDoCommand"
    case Update(_) => "UpdateToDoCommand"
    case Delete(_) => "DeleteToDoCommand"
    case Get(_) => "GetToDoQuery"
    case GetAll(_) => "GetAllToDosQuery"
  }

  /** Whether every field declared non-nullable holds a value: only the titles of the
      create and the update commands can arrive as `null`. */
  predicate NonNullFields(r: Request) {
    match r
    case Create(c) => c.title.Some?
    case Update(c) => c.title.Some?
    case _ => true
  }

  /** The `Validate()` of the request's own type. Only the create and the update rules
      can throw, and only on a null title; every rejection names its rule, and a request
      that passes has no null title left. */
  function Validate(r: Request): (o: Outcome<Verdict>)
    ensures o.Threw? ==> (r.Create? || r.Update?) && o.exception == NullReference
    ensures NonNullFields(r) ==> o.Returned?
    ensures !NonNullFields(r) ==> o.Threw? || o == Returned(Rejected(InvalidGuid))
    ensures o.Returned? && !o.value.isValid ==> o.value.errorMessage.Some?
    ensures o.Returned? && o.value.isValid ==> o.value.errorMessage == None && NonNullFields(r)
  {
    match r
    case Create(c) => CreateToDo.Validate(c)
    case Update(c) => UpdateToDo.Validate(c)
    case Delete(c) => Returned(DeleteToDo.Validate(c))
    case Get(q) => Returned(GetToDo.Validate(q))
    case GetAll(q) => Returned(GetAllToDos.Validate(q))
  }

  /** The `Result<TResponse>` a handler returns, by response type. */
  datatype Reply =
    | ToDoReply(todo: Result<Option<ToDoResponse>>)
    | DeleteReply(deleted: Result<bool>)
    | ListReply(list: Result<Option<seq<ToDoResponse>>>)
  {
    predicate IsSuccess() {
      match this
      case ToDoReply(x) => x.IsSuccess()
      case DeleteReply(x) => x.IsSuccess()
      case ListReply(x) => x.IsSuccess()
    }

    function Error(): Option<ResultError> {
      match this
      case ToDoReply(x) => x.error
      case DeleteReply(x) => x.error
      case ListReply(x) => x.error
    }
  }

  /** Whether a reply has the result type of the request's handler. */
  predicate Answers(r: Request, reply: Reply) {
    match r
    case Delete(_) => reply.DeleteReply?
    case GetAll(_) => reply.ListReply?
    case _ => reply.ToDoReply?
  }

  /** `Result<TResponse>.Failure(message)` for the request's response type, whose data is
      that type's default: `null` for a to-do or a list, `false` for a deletion. */
  function FailureReply(r: Request, message: Message): (reply: Reply)
    ensures Answers(r, reply) && !reply.IsSuccess()
    ensures reply.Error() == Some(ResultError(message, None))
    ensures reply.ToDoReply? ==> reply.todo.data == None
    ensures reply.DeleteReply? ==> !reply.deleted.data
    ensures reply.ListReply? ==> reply.list.data == None
  {
    match r
    case Delete(_) => DeleteReply(Failure(false, message))
    case GetAll(_) => ListReply(Failure(None, message))
    case _ => ToDoReply(Failure(None, message))
  }

  /** The undecorated handler of the request. `newId` is the key `Guid.NewGuid()` gives a
      created entity; only the create handler uses it. Queries leave the state as it was. */
  function Handled(w: World, r: Request, engine: Engine, ticks: nat -> Instant, userId: Guid, newId: Guid)
    : (res: (Outcome<Reply>, World))
    requires NonNullFields(r)
    ensures res.0.Returned? ==> Answers(r, res.0.value)
    ensures r.IsQuery() ==> res.1 == w
  {
    match r
    case Create(c) =>
      var h := CreateToDo.Handled(w, c, engine, ticks, userId, newId);
      (match h.0 case Threw(e) => Threw(e) case Returned(x) => Returned(ToDoReply(x)), h.1)
    case Update(c) =>
      var h := UpdateToDo.Handled(w, c, engine, ticks, userId);
      (match h.0 case Threw(e) => Threw(e) case Returned(x) => Returned(ToDoReply(x)), h.1)
    case Delete(c) =>
      var h := DeleteToDo.Handled(w, c, engine);
      (match h.0 case Threw(e) => Threw(e) case Returned(x) => Returned(DeleteReply(x)), h.1)
    case Get(q) =>
      var h := GetToDo.Handled(w, q, engine);
      (match h case Threw(e) => Threw(e) case Returned(x) => Returned(ToDoReply(x)), w)
    case GetAll(q) =>
      var h := GetAllToDos.Handled(w, q, engine);
      (match h case Threw(e) => Threw(e) case Returned(x) => Returned(ListReply(x)), w)
  }

  /** The handlers the container registers for one request scope, all over the scope's
      one repository. */
  class ToDoHandlers {
    const repository: ToDoRepository
    const create: CreateToDo.CreateToDoCommandHandler
    const update: UpdateToDo.UpdateToDoCommandHandler
    const delete: DeleteToDo.DeleteToDoCommandHandler
    const get: GetToDo.GetToDoQueryHandler
    const getAll: GetAllToDos.GetAllToDosQueryHandler

    /** Every handler holds the scope's repository. */
    predicate Wired() {
      && create.repository == repository
      && update.repository == repository
      && delete.repository == repository
      && get.repository == repository
      && getAll.repository == repository
    }

    constructor (repository: ToDoRepository)
      ensures this.repository == repository && Wired()
    {
      this.repository := repository;
      create := new CreateToDo.CreateToDoCommandHandler(repository);
      update := new UpdateToDo.UpdateToDoCommandHandler(repository);
      delete := new DeleteToDo.DeleteToDoCommandHandler(repository);
      get := new GetToDo.GetToDoQueryHandler(repository);
      getAll := new GetAllToDos.GetAllToDosQueryHandler(repository);
    }

    /** Resolve the request's handler and run it. */
    method Handle(r: Request, engine: Engine, newId: Guid) returns (o: Outcome<Reply>)
      requires Wired() && NonNullFields(r)
      modifies repository.context, repository.interceptor.timeProvider
      ensures (o, repository.State()) ==
        Handled(old(repository.State()), r, engine, repository.Ticks(), repository.UserId(), newId)
    {
      match r
      case Create(c) =>
        var x := create.Handle(c, engine, newId);
        o := match x case Threw(e) => Threw(e) case Returned(v) => Returned(ToDoReply(v));
      case Update(c) =>
        var x := update.Handle(c, engine);
        o := match x case Threw(e) => Threw(e) case Returned(v) => Returned(ToDoReply(v));
      case Delete(c) =>
        var x := delete.Handle(c, engine);
        o := match x case Threw(e) => Threw(e) case Returned(v) => Returned(DeleteReply(v));
      case Get(q) =>
        var x := get.Handle(q, engine);
        o := match x case Threw(e) => Threw(e) case Returned(v) => Returned(ToDoReply(v));
      case GetAll(q) =>
        var x := getAll.Handle(q, engine);
        o := match x case Threw(e) => Threw(e) case Returned(v) => Returned(ListReply(v));
    }
  }
}
