/** The to-do entity with its audit fields, the response it is mapped to, and the
    column bounds the database enforces. */
module Domain {
  import opened Common

  // DbConstraints
  const MinToDoNameLength: int16 := 1
  const MaxToDoNameLength: int16 := 500
  const MaxToDoNoteLength: int16 := 500

  /** The four audit fields of `BaseAuditableEntity`, all nullable. `CreatedBy` and
      `LastModifiedBy` hold `userId.ToString()`; the model keeps the identifier itself,
      since its text is a function of it alone. */
  datatype Audit = Audit(
    created: Option<Instant>,
    createdBy: Option<Guid>,
    lastModified: Option<Instant>,
    lastModifiedBy: Option<Guid>)

  /** A freshly constructed entity has no audit stamp. */
  const Unaudited: Audit := Audit(None, None, None, None)

  /** `ToDoEntity`: the business fields and the inherited `Id` and audit fields. */
  datatype ToDoEntity = ToDoEntity(
    id: Guid,
    title: string,
    note: Option<string>,
    priority: int,
    reminder: Option<DateTime>,
    audit: Audit)

  /** `record ToDoResponse(Guid Id, string Title, int Priority, string? Note)`. */
  datatype ToDoResponse = ToDoResponse(id: Guid, title: string, priority: int, note: Option<string>)

  /** The Mapster mapping `entity.Adapt<ToDoResponse>()`: copies the fields of the same
      name; the reminder and the audit fields are not part of the response. */
  function Adapt(e: ToDoEntity): (r: ToDoResponse)
    ensures r.id == e.id && r.title == e.title && r.priority == e.priority && r.note == e.note
  {
    ToDoResponse(e.id, e.title, e.priority, e.note)
  }

  /** `entities.Adapt<List<ToDoResponse>>()`: one response per entity, in order. */
  function AdaptAll(es: seq<ToDoEntity>): (rs: seq<ToDoResponse>)
    ensures |rs| == |es|
    ensures forall i :: 0 <= i < |es| ==> rs[i] == Adapt(es[i])
  {
    seq(|es|, i requires 0 <= i < |es| => Adapt(es[i]))
  }

  /** Two entities that differ at most in their audit fields map to the same response:
      stamping an entity before a save never changes what the handler returns. */
  lemma AdaptIgnoresAudit(e: ToDoEntity, a: Audit)
    ensures Adapt(e.(audit := a)) == Adapt(e)
  {
  }

  /** The column bounds of the to-do table: a title of at most `MaxToDoNameLength`
      characters and a note of at most the same length (the note column is configured
      with the name bound, which has the same value as `MaxToDoNoteLength`). */
  predicate FitsColumns(e: ToDoEntity) {
    |e.title| <= MaxToDoNameLength as int &&
    (e.note.Some? ==> |e.note.value| <= MaxToDoNameLength as int)
  }
}
