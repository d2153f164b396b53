/** `ValidationDecorator` and the order the container composes the decorators in: the
    validation decorator is registered last, so it is the outermost layer: a request it
    rejects never reaches the exception decorator or the handler, and an exception
    thrown by `Validate()` itself escapes without being logged. The query and the
    command variants have the same body and are modelled once. */
module Validation {
  import opened Common
  import opened Results
  import opened Cqrs
  import opened Domain
  import opened Repository
  import opened Requests
  import opened UnhandledExceptions
  import CreateToDo
  import UpdateToDo
  import GetAllToDos

  /** The message of a rejection: the one `Validate()` gave, or `DefaultErrorMessage`. */
  function RejectionMessage(v: Verdict): (m: Message)
    ensures v.errorMessage.Some? ==> m == v.errorMessage.value
    ensures v.errorMessage.None? ==> m == ValidationFailed
  {
    v.errorMessage.GetOr(ValidationFailed)
  }

  /** The whole pipeline, validation then exception logging then the handler: the
      outcome, the state after it and the log after it. */
  function Dispatched(w: World, log: seq<LogEntry>, r: Request, engine: Engine, ticks: nat -> Instant, userId: Guid, newId: Guid)
    : (res: (Outcome<Reply>, World, seq<LogEntry>))
    ensures res.0.Returned? ==> Answers(r, res.0.value)
    ensures Validate(r).Threw? ==> res == (Threw(Validate(r).exception), w, log)
    ensures Validate(r).Returned? && !Validate(r).value.isValid ==>
      res == (Returned(FailureReply(r, RejectionMessage(Validate(r).value))), w, log)
    ensures Validate(r).Returned? && Validate(r).value.isValid ==>
      (res.0, res.1) == Handled(w, r, engine, ticks, userId, newId) && res.2 == Logged(log, r, res.0)
  {
    var v := Validate(r);
    if v.Threw? then (Threw(v.exception), w, log)
    else if !v.value.isValid then (Returned(FailureReply(r, RejectionMessage(v.value))), w, log)
    else
      var inner := Handled(w, r, engine, ticks, userId, newId);
      (inner.0, inner.1, Logged(log, r, inner.0))
  }

  /** The decorator the container wraps around the exception decorator. */
  class ValidationHandler {
    const inner: UnhandledExceptionHandler

    constructor (inner: UnhandledExceptionHandler)
      ensures this.inner == inner
    {
      this.inner := inner;
    }

    /** Validate, letting an exception it throws propagate; pass a valid request on,
        answer an invalid one with a failure. */
    method Handle(r: Request, engine: Engine, newId: Guid) returns (o: Outcome<Reply>)
      requires inner.inner.Wired()
      modifies inner.inner.repository.context, inner.inner.repository.interceptor.timeProvider, inner.logger
      ensures (o, inner.inner.repository.State(), inner.logger.entries) ==
        Dispatched(old(inner.inner.repository.State()), old(inner.logger.entries), r, engine,
                   inner.inner.repository.Ticks(), inner.inner.repository.UserId(), newId)
    {
      var v := Validate(r);
      if v.Threw? {
        return Threw(v.exception);
      }
      if v.value.isValid {
        o := inner.Handle(r, engine, newId);
        return;
      }
      o := Returned(FailureReply(r, v.value.errorMessage.GetOr(ValidationFailed)));
    }
  }

  /** Builds the scope's pipeline the way the container does: handlers, then the
      exception decorator around them, then the validation decorator around that. */
  method Compose(repository: ToDoRepository, logger: Logger) returns (pipeline: ValidationHandler)
    ensures pipeline.inner.inner.repository == repository && pipeline.inner.logger == logger
    ensures pipeline.inner.inner.Wired()
  {
    var handlers := new ToDoHandlers(repository);
    var logged := new UnhandledExceptionHandler(handlers, logger);
    pipeline := new ValidationHandler(logged);
  }

  // ---------------------------------------------------------------------------
  // Properties of the composition

  /** Every request type that overrides `Validate()` names its broken rule, so the
      decorator's default message is never the answer. */
  lemma RejectionsCarryTheirOwnMessage(w: World, log: seq<LogEntry>, r: Request, engine: Engine, ticks: nat -> Instant, userId: Guid, newId: Guid)
    requires Validate(r).Returned? && !Validate(r).value.isValid
    ensures Dispatched(w, log, r, engine, ticks, userId, newId).0.value.Error() ==
      Some(ResultError(Validate(r).value.errorMessage.value, None))
    ensures RejectionMessage(Validate(r).value) != ValidationFailed
  {
  }

  /** A rejected request changes nothing and logs nothing, whatever the database would
      have done: it is answered before the exception decorator runs. */
  lemma RejectedRequestIsNeitherHandledNorLogged(w: World, log: seq<LogEntry>, r: Request, engine: Engine, engine2: Engine, ticks: nat -> Instant, userId: Guid, newId: Guid)
    requires Validate(r).Returned? && !Validate(r).value.isValid
    ensures var res := Dispatched(w, log, r, engine, ticks, userId, newId);
            res.1 == w && res.2 == log && res == Dispatched(w, log, r, engine2, ticks, userId, newId)
  {
  }

  /** For a request that passes validation, a fault reaches the caller unchanged and is
      logged exactly once, under the request's type name; a returned result is not
      logged. */
  lemma FaultsAreLoggedOnceAndRethrown(w: World, log: seq<LogEntry>, r: Request, engine: Engine, ticks: nat -> Instant, userId: Guid, newId: Guid)
    requires Validate(r).Returned? && Validate(r).value.isValid
    ensures var res := Dispatched(w, log, r, engine, ticks, userId, newId);
            var inner := Handled(w, r, engine, ticks, userId, newId);
            && res.0 == inner.0
            && (res.0.Threw? <==> |res.2| == |log| + 1)
            && (res.0.Threw? ==> res.2 == log + [LogEntry(inner.0.exception, Template, TypeName(r))])
            && (res.0.Returned? ==> res.2 == log)
  {
  }

  /** A query fault is logged under the query's type name and a command fault under the
      command's, with the same template. */
  lemma QueryFaultIsLoggedWithItsTypeName(w: World, log: seq<LogEntry>, e: Exception, ticks: nat -> Instant, userId: Guid, newId: Guid)
    ensures var r := GetAll(GetAllToDos.GetAllToDosQuery);
            Dispatched(w, log, r, Engine(Some(e), None, true), ticks, userId, newId) ==
            (Threw(e), w, log + [LogEntry(e, Template, "GetAllToDosQuery")])
  {
  }

  /** `GetAllToDosQuery` has no rules, so it always reaches its handler, and without a
      fault it always succeeds, with an empty list for an empty table. */
  lemma ListingAlwaysSucceeds(w: World, log: seq<LogEntry>, engine: Engine, ticks: nat -> Instant, userId: Guid, newId: Guid)
    requires engine.queryFault.None?
    ensures var res := Dispatched(w, log, GetAll(GetAllToDos.GetAllToDosQuery), engine, ticks, userId, newId);
            && res.0.Returned? && res.0.value.IsSuccess() && res.1 == w && res.2 == log
            && (w.rows == map[] ==> res.0.value.list.data == Some([]))
  {
  }

  /** An update with the empty identifier is answered with `InvalidGuid`, even when its
      other fields are also invalid, and without touching the table. */
  lemma EmptyIdUpdateIsInvalidGuid(w: World, log: seq<LogEntry>, c: UpdateToDo.UpdateToDoCommand, engine: Engine, ticks: nat -> Instant, userId: Guid, newId: Guid)
    requires c.id == EmptyGuid
    ensures Dispatched(w, log, Update(c), engine, ticks, userId, newId) ==
      (Returned(ToDoReply(Failure(None, InvalidGuid))), w, log)
  {
  }

  /** An exception thrown by `Validate()` reaches the caller unchanged, with nothing
      handled and nothing logged, although the exception decorator logs every exception
      that reaches it: with the decorators in the other order it would have been logged.
      This is the observable consequence of the validation decorator being outermost. */
  lemma ValidateFaultEscapesUnlogged(w: World, log: seq<LogEntry>, r: Request, engine: Engine, ticks: nat -> Instant, userId: Guid, newId: Guid)
    requires Validate(r).Threw?
    ensures var e := Validate(r).exception;
            && Dispatched(w, log, r, engine, ticks, userId, newId) == (Threw(e), w, log)
            && Logged(log, r, Threw(e)) != log
  {
    var e := Validate(r).exception;
    assert |Logged(log, r, Threw(e))| == |log| + 1;
  }

  /** A create whose body sends `null` for the title throws from `Validate()`; the
      exception escapes unlogged and the table is untouched. An update whose identifier
      is set does the same. */
  lemma NullTitleEscapesUnlogged(w: World, log: seq<LogEntry>, id: Guid, priority: int, note: Option<string>, reminder: Option<DateTime>, engine: Engine, ticks: nat -> Instant, userId: Guid, newId: Guid)
    ensures Dispatched(w, log, Create(CreateToDo.CreateToDoCommand(None, priority, note, reminder)), engine, ticks, userId, newId) ==
      (Threw(NullReference), w, log)
    ensures id != EmptyGuid ==>
      Dispatched(w, log, Update(UpdateToDo.UpdateToDoCommand(id, None, priority, note)), engine, ticks, userId, newId) ==
      (Threw(NullReference), w, log)
  {
  }

  /** The note bound is enforced on update but not on create: a note one character over
      the bound passes the create rules, yet the same fields are rejected on update. */
  lemma CreateAcceptsANoteUpdateRejects()
    ensures exists c: CreateToDo.CreateToDoCommand, id: Guid ::
      && c.title.Some?
      && CreateToDo.Validate(c) == Returned(Accepted)
      && !FitsColumns(CreateToDo.NewEntity(c, id))
      && UpdateToDo.Validate(UpdateToDo.UpdateToDoCommand(id, c.title, c.priority, c.note)) ==
         Returned(Rejected(MaxLength("Note", MaxToDoNoteLength)))
  {
    var note := seq(MaxToDoNoteLength as int + 1, _ => 'x');
    var c := CreateToDo.CreateToDoCommand(Some("a"), 0, Some(note), None);
    var id: Guid := 1;
    assert |note| == 501;
    assert CreateToDo.Validate(c) == Returned(Accepted);
    assert !FitsColumns(CreateToDo.NewEntity(c, id));
  }

  /** A valid create in a fresh scope, saved, answers success with the new to-do and
      stores exactly one stamped row; nothing is logged. */
  lemma ValidCreateEndToEnd(w: World, log: seq<LogEntry>, c: CreateToDo.CreateToDoCommand, engine: Engine, ticks: nat -> Instant, userId: Guid, newId: Guid)
    requires CreateToDo.Validate(c).Returned? && CreateToDo.Validate(c).value.isValid
    requires w.entries == [] && newId !in w.rows
    requires engine.saveFault.None? && engine.saveWrites
    ensures var res := Dispatched(w, log, Create(c), engine, ticks, userId, newId);
            && res.0 == Returned(ToDoReply(Success(Some(ToDoResponse(newId, c.title.value, c.priority, c.note)))))
            && |res.1.rows| == |w.rows| + 1
            && newId in res.1.rows && res.1.rows[newId].audit.createdBy == Some(userId)
            && res.2 == log
  {
    CreateToDo.CreateStoresOneStampedRow(w, c, engine, ticks, userId, newId);
  }
}
