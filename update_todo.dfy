/** `UpdateToDoCommand`: its validation rules and its handler, which loads the tracked
    to-do, overwrites its title, priority and note, and saves. */
module UpdateToDo {
  import opened Common
  import opened Results
  import opened Cqrs
  import opened Domain
  import opened Data
  import opened Interceptors
  import opened Repository

  /** `record UpdateToDoCommand(Guid Id, string Title, int Priority, string? Note)`.
      `Title` is declared non-nullable, yet a request body that sends `null` for it binds,
      so the model lets it be `None`. */
  datatype UpdateToDoCommand = UpdateToDoCommand(id: Guid, title: Option<string>, priority: int, note: Option<string>)

  /** The rules `Validate()` checks on a non-null title, in the order it checks them. */
  function Checks(c: UpdateToDoCommand): seq<Check>
    requires c.title.Some?
  {
    [ Check(c.id != EmptyGuid, InvalidGuid),
      Check(|c.title.value| >= MinToDoNameLength as int, MinLength("Title", MinToDoNameLength)),
      Check(|c.title.value| <= MaxToDoNameLength as int, MaxLength("Title", MaxToDoNameLength)),
      Check(c.priority >= 0, MinLength("Priority", 0)),
      Check(c.note.None? || |c.note.value| <= MaxToDoNoteLength as int, MaxLength("Note", MaxToDoNoteLength)) ]
  }

  /** `Validate()`: the empty identifier first; then reading the length of a null title
      throws; then the title length against both bounds, then a negative priority, then a
      non-null note longer than its bound. */
  function Validate(c: UpdateToDoCommand): (o: Outcome<Verdict>)
    ensures o.Threw? <==> c.id != EmptyGuid && c.title.None?
    ensures o.Threw? ==> o.exception == NullReference
    ensures o.Returned? ==> (o.value.isValid <==>
      && c.id != EmptyGuid && c.title.Some?
      && MinToDoNameLength as int <= |c.title.value| <= MaxToDoNameLength as int
      && c.priority >= 0
      && (c.note.Some? ==> |c.note.value| <= MaxToDoNoteLength as int))
    ensures o.Returned? && o.value.isValid ==> o.value.errorMessage == None
    ensures c.id == EmptyGuid ==> o == Returned(Rejected(InvalidGuid))
    ensures c.id != EmptyGuid && c.title.Some? && |c.title.value| < MinToDoNameLength as int ==>
      o == Returned(Rejected(MinLength("Title", MinToDoNameLength)))
    ensures c.id != EmptyGuid && c.title.Some? && |c.title.value| > MaxToDoNameLength as int ==>
      o == Returned(Rejected(MaxLength("Title", MaxToDoNameLength)))
    ensures c.id != EmptyGuid && c.title.Some? && MinToDoNameLength as int <= |c.title.value| <= MaxToDoNameLength as int &&
            c.priority < 0 ==>
      o == Returned(Rejected(MinLength("Priority", 0)))
    ensures (c.id != EmptyGuid && c.title.Some? && MinToDoNameLength as int <= |c.title.value| <= MaxToDoNameLength as int &&
             c.priority >= 0 && c.note.Some? && |c.note.value| > MaxToDoNoteLength as int) ==>
      o == Returned(Rejected(MaxLength("Note", MaxToDoNoteLength)))
  {
    if c.id == EmptyGuid then Returned(Rejected(InvalidGuid))
    else if c.title.None? then Threw(NullReference)
    else
      var title := c.title.value;
      if |title| < MinToDoNameLength as int then Returned(Rejected(MinLength("Title", MinToDoNameLength)))
      else if |title| > MaxToDoNameLength as int then Returned(Rejected(MaxLength("Title", MaxToDoNameLength)))
      else if c.priority < 0 then Returned(Rejected(MinLength("Priority", 0)))
      else if c.note.Some? && |c.note.value| > MaxToDoNoteLength as int then Returned(Rejected(MaxLength("Note", MaxToDoNoteLength)))
      else Returned(Accepted)
  }

  /** On a non-null title, `Validate()` is the first-failure rule chain over `Checks`. */
  lemma ValidateIsFirstViolation(c: UpdateToDoCommand)
    requires c.title.Some?
    ensures Validate(c) == Returned(FirstViolation(Checks(c)))
  {
    var checks := Checks(c);
    if !checks[0].holds {
      FirstViolationReportsFirstBroken(checks, 0);
    } else if !checks[1].holds {
      FirstViolationReportsFirstBroken(checks, 1);
    } else if !checks[2].holds {
      FirstViolationReportsFirstBroken(checks, 2);
    } else if !checks[3].holds {
      FirstViolationReportsFirstBroken(checks, 3);
    } else if !checks[4].holds {
      FirstViolationReportsFirstBroken(checks, 4);
    } else {
      FirstViolationAcceptsIffAllHold(checks);
    }
  }

  /** A request that passes validation fits the table's columns once applied: the title
      and the note (a null note becomes the empty text) are within their bounds. */
  lemma ValidUpdateFitsColumns(c: UpdateToDoCommand, e: ToDoEntity)
    requires Validate(c).Returned? && Validate(c).value.isValid
    ensures FitsColumns(Overwritten(e, c))
  {
  }

  /** The three assignments of the handler; a null note is stored as the empty text. */
  function Overwritten(e: ToDoEntity, c: UpdateToDoCommand): (r: ToDoEntity)
    requires c.title.Some?
    ensures r.id == e.id && r.reminder == e.reminder && r.audit == e.audit
    ensures r.title == c.title.value && r.priority == c.priority
    ensures r.note == Some(if c.note.Some? then c.note.value else "")
  {
    e.(title := c.title.value, priority := c.priority, note := Some(c.note.GetOr("")))
  }

  /** The tracker after the handler's assignments to tracked entry `i`: only that
      entry's entity changes, its snapshot and state are left for the save to compare. */
  function Edited(w: World, c: UpdateToDoCommand, i: nat): (r: World)
    requires c.title.Some? && i < |w.entries|
    ensures r.rows == w.rows && r.clockReads == w.clockReads && |r.entries| == |w.entries|
    ensures r.entries[i] == w.entries[i].(entity := Overwritten(w.entries[i].entity, c))
    ensures forall j :: 0 <= j < |w.entries| && j != i ==> r.entries[j] == w.entries[j]
  {
    w.(entries := w.entries[i := w.entries[i].(entity := Overwritten(w.entries[i].entity, c))])
  }

  /** `UpdateToDoCommandHandler.Handle`: load the tracked entity; answer `NotFound`
      without saving when there is none; otherwise overwrite it in the tracker, save, and
      answer `SomethingWentWrong` when the save wrote no row, else the entity. */
  function Handled(w: World, c: UpdateToDoCommand, engine: Engine, ticks: nat -> Instant, userId: Guid)
    : (r: (Outcome<Result<Option<ToDoResponse>>>, World))
    requires c.title.Some?
    ensures r.0.Threw? <==> engine.queryFault.Some? || (c.id in w.rows && engine.saveFault.Some?)
    ensures r.0.Threw? ==>
      r.0.exception == if engine.queryFault.Some? then engine.queryFault.value else engine.saveFault.value
    ensures c.id in w.rows && engine.queryFault.None? ==>
      var f := FetchTracked(w, c.id, engine);
      var s := SaveAll(Edited(f.1, c, f.0.value.value), engine, ticks, userId);
      && r.1 == s.1
      && (r.0.Returned? ==> s.0.Returned? && (r.0.value.IsSuccess() <==> s.0.value > 0))
    ensures r.0.Returned? && r.0.value.IsSuccess() ==> c.id in w.rows && engine.saveWrites
    ensures r.0.Returned? && r.0.value.IsSuccess() && KeyedById(w.rows) ==>
      r.0.value.data == Some(ToDoResponse(c.id, c.title.value, c.priority, Some(c.note.GetOr(""))))
    ensures r.0.Returned? && !r.0.value.IsSuccess() ==>
      r.0.value == Failure(None, if c.id in w.rows then SomethingWentWrong else NotFound)
    ensures r.0.Returned? && c.id !in w.rows ==> r.1 == w
  {
    var fetched := FetchTracked(w, c.id, engine);
    match fetched.0
    case Threw(e) => (Threw(e), fetched.1)
    case Returned(None) => (Returned(Failure(None, NotFound)), fetched.1)
    case Returned(Some(i)) =>
      var w1 := Edited(fetched.1, c, i);
      var entity := w1.entries[i].entity;
      var saved := SaveAll(w1, engine, ticks, userId);
      match saved.0
      case Threw(e) => (Threw(e), saved.1)
      case Returned(n) =>
        if n == 0 then (Returned(Failure(None, SomethingWentWrong)), saved.1)
        else (Returned(Success(Some(Adapt(entity)))), saved.1)
  }

  /** In a fresh request scope, an update that changes a stored to-do and a save that
      writes store the new values under the same key, stamped as last modified by the
      current user at the first clock reading, with the creation stamp kept; every other
      row stays as it was. */
  lemma UpdateStoresNewValues(w: World, c: UpdateToDoCommand, engine: Engine, ticks: nat -> Instant, userId: Guid)
    requires c.title.Some? && w.entries == [] && KeyedById(w.rows) && c.id in w.rows
    requires Overwritten(w.rows[c.id], c) != w.rows[c.id]
    requires engine.queryFault.None? && engine.saveFault.None? && engine.saveWrites
    ensures var r := Handled(w, c, engine, ticks, userId);
            var stored := w.rows[c.id];
            && r.0 == Returned(Success(Some(ToDoResponse(c.id, c.title.value, c.priority, Some(c.note.GetOr(""))))))
            && r.1.rows.Keys == w.rows.Keys
            && (forall k :: k in w.rows && k != c.id ==> r.1.rows[k] == w.rows[k])
            && r.1.rows[c.id] == Overwritten(stored, c).(audit := stored.audit.(lastModified := Some(ticks(w.clockReads)), lastModifiedBy := Some(userId)))
  {
    var row := w.rows[c.id];
    var loaded := Entry(row, row, Unchanged, []);
    var changed := loaded.(entity := Overwritten(row, c));
    assert FindTracked(w.entries, c.id) == None && w.entries + [loaded] == [loaded];
    assert FetchTracked(w, c.id, engine) == (Returned(Some(0)), w.(entries := [loaded]));
    assert [loaded][0 := changed] == [changed];
    SaveOfOneChangedEntry(w.rows, w.clockReads, changed, engine, ticks, userId);
  }

  /** In a fresh request scope, an update that repeats a stored to-do's values writes
      nothing, so the handler reports `SomethingWentWrong` although the to-do exists; the
      table and the clock are untouched. */
  lemma UnchangedUpdateReportsSomethingWentWrong(w: World, c: UpdateToDoCommand, engine: Engine, ticks: nat -> Instant, userId: Guid)
    requires c.title.Some? && w.entries == [] && c.id in w.rows
    requires Overwritten(w.rows[c.id], c) == w.rows[c.id]
    requires engine.queryFault.None? && engine.saveFault.None?
    ensures var r := Handled(w, c, engine, ticks, userId);
            && r.0 == Returned(Failure(None, SomethingWentWrong))
            && r.1.rows == w.rows && r.1.clockReads == w.clockReads
  {
    var row := w.rows[c.id];
    var loaded := Entry(row, row, Unchanged, []);
    assert FindTracked(w.entries, c.id) == None && w.entries + [loaded] == [loaded];
    assert FetchTracked(w, c.id, engine) == (Returned(Some(0)), w.(entries := [loaded]));
    assert [loaded][0 := loaded] == [loaded];
    SaveOfOneUnchangedEntry(w.rows, w.clockReads, loaded, engine, ticks, userId);
  }

  /** The handler class: one repository, one `Handle`. */
  class UpdateToDoCommandHandler {
    const repository: ToDoRepository

    constructor (repository: ToDoRepository)
      ensures this.repository == repository
    {
      this.repository := repository;
    }

    method Handle(c: UpdateToDoCommand, engine: Engine) returns (o: Outcome<Result<Option<ToDoResponse>>>)
      requires c.title.Some?
      modifies repository.context, repository.interceptor.timeProvider
      ensures (o, repository.State()) ==
        Handled(old(repository.State()), c, engine, repository.Ticks(), repository.UserId())
    {
      var fetched := repository.GetByIdAsync(c.id, engine);
      if fetched.Threw? {
        return Threw(fetched.exception);
      }
      if fetched.value.None? {
        return Returned(Failure(None, NotFound));
      }
      var i := fetched.value.value;
      var entry := repository.context.entries[i];
      var entity := entry.entity.(title := c.title.value, priority := c.priority, note := Some(c.note.GetOr("")));
      repository.context.entries := repository.context.entries[i := entry.(entity := entity)];
      var saved := repository.SaveChangesAsync(engine);
      if saved.Threw? {
        return Threw(saved.exception);
      }
      if saved.value == 0 {
        return Returned(Failure(None, SomethingWentWrong));
      }
      o := Returned(Success(Some(Adapt(entity))));
    }
  }
}
