/** `GetAllToDosQuery`: no validation of its own, and a handler that lists every to-do
    by priority without tracking them. */
module GetAllToDos {
  import opened Common
  import opened Results
  import opened Cqrs
  import opened Domain
  import opened Repository

  /** `record GetAllToDosQuery`, which has no fields. */
  datatype GetAllToDosQuery = GetAllToDosQuery

  /** The query does not override `Validate()`, so it always passes. */
  function Validate(q: GetAllToDosQuery): (v: Verdict)
    ensures v.isValid && v.errorMessage == None
  {
    DefaultValidate()
  }

  /** `GetAllToDosQueryHandler.Handle`: an empty list when there are no rows, else every
      row as a response in the listing order. A query changes nothing. */
  function Handled(w: World, q: GetAllToDosQuery, engine: Engine): (r: Outcome<Result<Option<seq<ToDoResponse>>>>)
    ensures r.Threw? <==> engine.queryFault.Some?
    ensures r.Threw? ==> r.exception == engine.queryFault.value
    ensures r.Returned? ==> r.value.IsSuccess() && r.value.data.Some? && |r.value.data.value| == |w.rows|
  {
    match ListRows(w, engine)
    case Threw(e) => Threw(e)
    case Returned(entities) =>
      if |entities| == 0 then Returned(Success(Some([])))
      else Returned(Success(Some(AdaptAll(entities))))
  }

  /** A successful listing holds one response per stored to-do and nothing else. */
  lemma ListingHoldsEveryRow(w: World, q: GetAllToDosQuery, engine: Engine)
    requires engine.queryFault.None?
    ensures var list := Handled(w, q, engine).value.data.value;
            && (forall k :: k in w.rows ==> Adapt(w.rows[k]) in list)
            && (forall i :: 0 <= i < |list| ==> exists k :: k in w.rows && list[i] == Adapt(w.rows[k]))
  {
    var entities := OrderedByPriority(w.rows);
    var list := Handled(w, q, engine).value.data.value;
    assert list == AdaptAll(entities);
    OrderedByPriorityListsEveryRow(w.rows);
    forall k | k in w.rows ensures Adapt(w.rows[k]) in list {
      var i :| 0 <= i < |entities| && entities[i] == w.rows[k];
      assert list[i] == Adapt(w.rows[k]);
    }
    forall i | 0 <= i < |list| ensures exists k :: k in w.rows && list[i] == Adapt(w.rows[k]) {
      assert entities[i] in w.rows.Values;
      var k :| k in w.rows && w.rows[k] == entities[i];
      assert list[i] == Adapt(w.rows[k]);
    }
  }

  /** A successful listing is in ascending order of priority. */
  lemma ListingIsByPriority(w: World, q: GetAllToDosQuery, engine: Engine)
    requires engine.queryFault.None?
    ensures var list := Handled(w, q, engine).value.data.value;
            forall i, j :: 0 <= i < j < |list| ==> list[i].priority <= list[j].priority
  {
    var entities := OrderedByPriority(w.rows);
    var list := Handled(w, q, engine).value.data.value;
    assert list == AdaptAll(entities);
    OrderedByPriorityIsSorted(w.rows);
    forall i, j | 0 <= i < j < |list| ensures list[i].priority <= list[j].priority {
      assert list[i].priority == entities[i].priority && list[j].priority == entities[j].priority;
    }
  }

  /** The handler class: one repository, one `Handle`. */
  class GetAllToDosQueryHandler {
    const repository: ToDoRepository

    constructor (repository: ToDoRepository)
      ensures this.repository == repository
    {
      this.repository := repository;
    }

    method Handle(q: GetAllToDosQuery, engine: Engine) returns (o: Outcome<Result<Option<seq<ToDoResponse>>>>)
      ensures o == Handled(repository.State(), q, engine)
    {
      var entities := repository.GetAllOrderedByPriorityAsNoTrackingAsync(engine);
      if entities.Threw? {
        return Threw(entities.exception);
      }
      if |entities.value| == 0 {
        return Returned(Success(Some([])));
      }
      o := Returned(Success(Some(AdaptAll(entities.value))));
    }
  }
}
