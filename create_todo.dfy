/** `CreateToDoCommand`: its validation rules and its handler, which adds a new to-do
    and saves it. */
module CreateToDo {
  import opened Common
  import opened Results
  import opened Cqrs
  import opened Domain
  import opened Data
  import opened Interceptors
  import opened Repository

  /** `record CreateToDoCommand(string Title, int Priority, string? Note, DateTime? Reminder)`.
      `Title` is declared non-nullable, yet a request body that sends `null` for it binds,
      so the model lets it be `None`. */
  datatype CreateToDoCommand = CreateToDoCommand(title: Option<string>, priority: int, note: Option<string>, reminder: Option<DateTime>)

  /** The rules `Validate()` checks on a non-null title, in the order it checks them. */
  function Checks(c: CreateToDoCommand): seq<Check>
    requires c.title.Some?
  {
    [ Check(|c.title.value| >= MinToDoNameLength as int, MinLength("Title", MinToDoNameLength)),
      Check(|c.title.value| <= MaxToDoNameLength as int, MaxLength("Title", MaxToDoNameLength)),
      Check(c.priority >= 0, MinLength("Priority", 0)) ]
  }

  /** `Validate()`: reading the length of a null title throws; otherwise the title length
      is checked against both bounds, then the priority is checked for a negative value;
      the note and the reminder are not checked. */
  function Validate(c: CreateToDoCommand): (o: Outcome<Verdict>)
    ensures o.Threw? <==> c.title.None?
    ensures o.Threw? ==> o.exception == NullReference
    ensures o.Returned? ==>
      (o.value.isValid <==> MinToDoNameLength as int <= |c.title.value| <= MaxToDoNameLength as int && c.priority >= 0)
    ensures o.Returned? && o.value.isValid ==> o.value.errorMessage == None
    ensures c.title.Some? && |c.title.value| < MinToDoNameLength as int ==>
      o == Returned(Rejected(MinLength("Title", MinToDoNameLength)))
    ensures c.title.Some? && |c.title.value| > MaxToDoNameLength as int ==>
      o == Returned(Rejected(MaxLength("Title", MaxToDoNameLength)))
    ensures c.title.Some? && MinToDoNameLength as int <= |c.title.value| <= MaxToDoNameLength as int && c.priority < 0 ==>
      o == Returned(Rejected(MinLength("Priority", 0)))
  {
    if c.title.None? then Threw(NullReference)
    else
      var title := c.title.value;
      if |title| < MinToDoNameLength as int then Returned(Rejected(MinLength("Title", MinToDoNameLength)))
      else if |title| > MaxToDoNameLength as int then Returned(Rejected(MaxLength("Title", MaxToDoNameLength)))
      else if c.priority < 0 then Returned(Rejected(MinLength("Priority", 0)))
      else Returned(Accepted)
  }

  /** On a non-null title, `Validate()` is the first-failure rule chain over `Checks`. */
  lemma ValidateIsFirstViolation(c: CreateToDoCommand)
    requires c.title.Some?
    ensures Validate(c) == Returned(FirstViolation(Checks(c)))
  {
    var checks := Checks(c);
    if !checks[0].holds {
      FirstViolationReportsFirstBroken(checks, 0);
    } else if !checks[1].holds {
      FirstViolationReportsFirstBroken(checks, 1);
    } else if !checks[2].holds {
      FirstViolationReportsFirstBroken(checks, 2);
    } else {
      FirstViolationAcceptsIffAllHold(checks);
    }
  }

  /** The entity the handler builds: a fresh key from `Guid.NewGuid()` (passed in as
      `newId`), the command's fields and no audit stamp yet. */
  function NewEntity(c: CreateToDoCommand, newId: Guid): (e: ToDoEntity)
    requires c.title.Some?
    ensures e.id == newId && e.audit == Unaudited
    ensures e.title == c.title.value && e.priority == c.priority && e.note == c.note && e.reminder == c.reminder
  {
    ToDoEntity(newId, c.title.value, c.note, c.priority, c.reminder, Unaudited)
  }

  /** `CreateToDoCommandHandler.Handle`: track the new entity as Added, save, and answer
      `SomethingWentWrong` when the save wrote no row, else the entity as a response.
      The new entity is always pending, so the answer is a success exactly when the
      engine writes. */
  function Handled(w: World, c: CreateToDoCommand, engine: Engine, ticks: nat -> Instant, userId: Guid, newId: Guid)
    : (r: (Outcome<Result<Option<ToDoResponse>>>, World))
    requires c.title.Some?
    ensures r.1 == SaveAll(TrackAdded(w, NewEntity(c, newId)), engine, ticks, userId).1
    ensures r.0.Threw? <==> engine.saveFault.Some?
    ensures r.0.Threw? ==> r.0.exception == engine.saveFault.value
    ensures r.0.Returned? ==>
      (r.0.value.IsSuccess() <==> SaveAll(TrackAdded(w, NewEntity(c, newId)), engine, ticks, userId).0.value > 0)
    ensures r.0.Returned? ==> (r.0.value.IsSuccess() <==> engine.saveWrites)
    ensures r.0.Returned? && r.0.value.IsSuccess() ==> r.0.value.data == Some(Adapt(NewEntity(c, newId)))
    ensures r.0.Returned? && !r.0.value.IsSuccess() ==> r.0.value == Failure(None, SomethingWentWrong)
  {
    var entity := NewEntity(c, newId);
    TrackedAddIsPending(w, entity);
    var saved := SaveAll(TrackAdded(w, entity), engine, ticks, userId);
    match saved.0
    case Threw(e) => (Threw(e), saved.1)
    case Returned(n) =>
      if n == 0 then (Returned(Failure(None, SomethingWentWrong)), saved.1)
      else (Returned(Success(Some(Adapt(entity)))), saved.1)
  }

  /** In a fresh request scope, a save that writes leaves exactly the new entity in the
      table and the tracker, stamped as created and last modified by the current user at
      the first clock reading, and answers it. */
  lemma CreateInFreshScope(w: World, c: CreateToDoCommand, engine: Engine, ticks: nat -> Instant, userId: Guid, newId: Guid)
    requires c.title.Some? && w.entries == []
    requires engine.saveFault.None? && engine.saveWrites
    ensures var now := ticks(w.clockReads);
            var stamped := NewEntity(c, newId).(audit := Audit(Some(now), Some(userId), Some(now), Some(userId)));
            Handled(w, c, engine, ticks, userId, newId) ==
              (Returned(Success(Some(Adapt(NewEntity(c, newId))))),
               World(w.rows[newId := stamped], [Entry(stamped, stamped, Unchanged, [])], w.clockReads + 1))
  {
    SaveOfOneAddedEntity(w, NewEntity(c, newId), engine, ticks, userId);
  }

  /** In a fresh request scope, a save that writes stores exactly one new row under the
      new key: the command's fields, created and last modified by the current user at the
      first clock reading; every other row stays as it was; the answer is that row. */
  lemma CreateStoresOneStampedRow(w: World, c: CreateToDoCommand, engine: Engine, ticks: nat -> Instant, userId: Guid, newId: Guid)
    requires c.title.Some? && w.entries == [] && newId !in w.rows
    requires engine.saveFault.None? && engine.saveWrites
    ensures var r := Handled(w, c, engine, ticks, userId, newId);
            && r.0 == Returned(Success(Some(ToDoResponse(newId, c.title.value, c.priority, c.note))))
            && r.1.rows.Keys == w.rows.Keys + {newId}
            && |r.1.rows| == |w.rows| + 1
            && (forall k :: k in w.rows ==> r.1.rows[k] == w.rows[k])
            && r.1.rows[newId] == NewEntity(c, newId).(audit := Audit(Some(ticks(w.clockReads)), Some(userId), Some(ticks(w.clockReads)), Some(userId)))
            && r.1.clockReads == w.clockReads + 1
  {
    CreateInFreshScope(w, c, engine, ticks, userId, newId);
    var now := ticks(w.clockReads);
    var stamped := NewEntity(c, newId).(audit := Audit(Some(now), Some(userId), Some(now), Some(userId)));
    var rows := w.rows[newId := stamped];
    assert rows.Keys == w.rows.Keys + {newId};
  }

  /** The handler class: one repository, one `Handle`. */
  class CreateToDoCommandHandler {
    const repository: ToDoRepository

    constructor (repository: ToDoRepository)
      ensures this.repository == repository
    {
      this.repository := repository;
    }

    method Handle(c: CreateToDoCommand, engine: Engine, newId: Guid) returns (o: Outcome<Result<Option<ToDoResponse>>>)
      requires c.title.Some?
      modifies repository.context, repository.interceptor.timeProvider
      ensures (o, repository.State()) ==
        Handled(old(repository.State()), c, engine, repository.Ticks(), repository.UserId(), newId)
    {
      var entity := ToDoEntity(newId, c.title.value, c.note, c.priority, c.reminder, Unaudited);
      var _ := repository.AddAsync(entity);
      var saved := repository.SaveChangesAsync(engine);
      if saved.Threw? {
        return Threw(saved.exception);
      }
      if saved.value == 0 {
        return Returned(Failure(None, SomethingWentWrong));
      }
      o := Returned(Success(Some(Adapt(entity))));
    }
  }
}
