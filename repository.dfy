/** `ToDoRepository` over the scoped database context: the calls the handlers make, each
    specified by a function of the observable state (`World`) before the call. */
module Repository {
  import opened Common
  import opened Domain
  import opened Data
  import opened Interceptors

  /** What the database engine, which the model does not contain, does during one
      request: whether its queries throw (cancellation, a connection fault, ...), whether
      the save throws, and whether the save writes the pending rows or reports zero. */
  datatype Engine = Engine(queryFault: Option<Exception>, saveFault: Option<Exception>, saveWrites: bool)

  /** The state a request can observe: the committed rows, the change tracker's entries
      and how many times the clock has been read. */
  datatype World = World(rows: map<Guid, ToDoEntity>, entries: seq<Entry>, clockReads: nat)

  // ---------------------------------------------------------------------------
  // Queries

  /** Every row is stored under its own `Id`, the table's primary key. */
  predicate KeyedById(rows: map<Guid, ToDoEntity>) {
    forall k :: k in rows ==> rows[k].id == k
  }

  /** The index of the first tracked entry for `id`, if any. */
  function FindTracked(entries: seq<Entry>, id: Guid): (r: Option<nat>)
    ensures r.Some? ==> r.value < |entries| && entries[r.value].entity.id == id
    ensures r.Some? ==> forall i :: 0 <= i < r.value ==> entries[i].entity.id != id
    ensures r.None? ==> forall i :: 0 <= i < |entries| ==> entries[i].entity.id != id
  {
    if entries == [] then None
    else if entries[0].entity.id == id then Some(0)
    else
      match FindTracked(entries[1..], id)
      case None => None
      case Some(j) => Some(j + 1)
  }

  /** `GetByIdAsync(id)`: the query finds the row by key; identity resolution returns the
      entry already tracked for it, or starts tracking the row as Unchanged. The result is
      the index of the tracked entry. */
  function FetchTracked(w: World, id: Guid, engine: Engine): (r: (Outcome<Option<nat>>, World))
    ensures r.1.rows == w.rows && r.1.clockReads == w.clockReads
    ensures r.0.Threw? <==> engine.queryFault.Some?
    ensures r.0.Threw? ==> r.0.exception == engine.queryFault.value && r.1 == w
    ensures r.0 == Returned(None) ==> r.1 == w
    ensures r.0.Returned? && id in w.rows && FindTracked(w.entries, id).Some? ==>
      r == (Returned(FindTracked(w.entries, id)), w)
    ensures r.0.Returned? && id in w.rows && FindTracked(w.entries, id).None? ==>
      r == (Returned(Some(|w.entries|)), w.(entries := w.entries + [Entry(w.rows[id], w.rows[id], Unchanged, [])]))
    ensures r.0.Returned? ==> (r.0.value.Some? <==> id in w.rows)
    ensures r.0.Returned? && r.0.value.Some? ==> r.0.value.value < |r.1.entries|
    ensures r.0.Returned? && r.0.value.Some? && KeyedById(w.rows) ==> r.1.entries[r.0.value.value].entity.id == id
  {
    if engine.queryFault.Some? then (Threw(engine.queryFault.value), w)
    else if id !in w.rows then (Returned(None), w)
    else
      match FindTracked(w.entries, id)
      case Some(i) => (Returned(Some(i)), w)
      case None =>
        (Returned(Some(|w.entries|)), w.(entries := w.entries + [Entry(w.rows[id], w.rows[id], Unchanged, [])]))
  }

  /** `GetByIdAsNoTrackingAsync(id)`: the row with that key, read without tracking. */
  function FindRow(w: World, id: Guid, engine: Engine): (r: Outcome<Option<ToDoEntity>>)
    ensures r.Threw? <==> engine.queryFault.Some?
    ensures r.Threw? ==> r.exception == engine.queryFault.value
    ensures r.Returned? ==> (r.value.Some? <==> id in w.rows)
    ensures r.Returned? && r.value.Some? ==> r.value.value == w.rows[id]
  {
    if engine.queryFault.Some? then Threw(engine.queryFault.value)
    else if id in w.rows then Returned(Some(w.rows[id]))
    else Returned(None)
  }

  /** Row `k` comes no later than row `k2` in `ORDER BY Priority`; rows of equal priority
      are taken by key, since the query itself fixes no order among them. */
  predicate ListedNoLater(rows: map<Guid, ToDoEntity>, k: Guid, k2: Guid)
    requires k in rows && k2 in rows
  {
    rows[k].priority < rows[k2].priority || (rows[k].priority == rows[k2].priority && k <= k2)
  }

  /** `k` is the row listed first. */
  predicate IsFirst(rows: map<Guid, ToDoEntity>, k: Guid) {
    k in rows && forall k2 | k2 in rows :: ListedNoLater(rows, k, k2)
  }

  /** Every non-empty table has a row that is listed first. */
  lemma {:induction false} FirstExists(rows: map<Guid, ToDoEntity>)
    requires |rows| > 0
    ensures exists k :: IsFirst(rows, k)
  {
    var k0 :| k0 in rows;
    var rest := rows - {k0};
    assert rest.Keys == rows.Keys - {k0};
    if |rest| == 0 {
      forall k2 | k2 in rows ensures ListedNoLater(rows, k0, k2) {
        assert k2 !in rest;
      }
      assert IsFirst(rows, k0);
    } else {
      FirstExists(rest);
      var k1 :| IsFirst(rest, k1);
      var k := if ListedNoLater(rows, k0, k1) then k0 else k1;
      forall k2 | k2 in rows ensures ListedNoLater(rows, k, k2) {
        if k2 != k0 {
          assert ListedNoLater(rest, k1, k2);
        }
      }
      assert IsFirst(rows, k);
    }
  }

  /** The row listed first; there is exactly one, since keys are distinct. */
  function First(rows: map<Guid, ToDoEntity>): (k: Guid)
    requires |rows| > 0
    ensures IsFirst(rows, k)
  {
    FirstExists(rows);
    var k :| IsFirst(rows, k);
    k
  }

  /** `GetAllOrderedByPriorityAsNoTrackingAsync`'s list: the first row, then the rest
      listed the same way. */
  function OrderedByPriority(rows: map<Guid, ToDoEntity>): (list: seq<ToDoEntity>)
    ensures |list| == |rows|
    decreases |rows|
  {
    if |rows| == 0 then []
    else
      var k := First(rows);
      var rest := rows - {k};
      assert rest.Keys == rows.Keys - {k};
      [rows[k]] + OrderedByPriority(rest)
  }

  /** The list holds every row, and nothing else. */
  lemma {:induction false} OrderedByPriorityListsEveryRow(rows: map<Guid, ToDoEntity>)
    ensures forall k :: k in rows ==> rows[k] in OrderedByPriority(rows)
    ensures forall i :: 0 <= i < |OrderedByPriority(rows)| ==> OrderedByPriority(rows)[i] in rows.Values
    decreases |rows|
  {
    if |rows| > 0 {
      var k := First(rows);
      var rest := rows - {k};
      assert rest.Keys == rows.Keys - {k};
      OrderedByPriorityListsEveryRow(rest);
      var list := OrderedByPriority(rows);
      assert list == [rows[k]] + OrderedByPriority(rest);
      forall k2 | k2 in rows ensures rows[k2] in list {
        if k2 != k {
          assert rest[k2] in OrderedByPriority(rest);
        }
      }
      forall i | 0 <= i < |list| ensures list[i] in rows.Values {
        if i > 0 {
          assert list[i] == OrderedByPriority(rest)[i - 1];
          var k2 :| k2 in rest && rest[k2] == list[i];
          assert rows[k2] == list[i];
        }
      }
    }
  }

  /** `list` is in ascending order of priority. */
  predicate SortedByPriority(list: seq<ToDoEntity>) {
    forall i, j :: 0 <= i < j < |list| ==> list[i].priority <= list[j].priority
  }

  /** A sorted list stays sorted under a head of no greater priority than any element. */
  lemma PrependKeepsSorted(head: ToDoEntity, tail: seq<ToDoEntity>)
    requires SortedByPriority(tail)
    requires forall i :: 0 <= i < |tail| ==> head.priority <= tail[i].priority
    ensures SortedByPriority([head] + tail)
  {
    var list := [head] + tail;
    forall i, j | 0 <= i < j < |list| ensures list[i].priority <= list[j].priority {
      assert list[j] == tail[j - 1];
      if i > 0 {
        assert list[i] == tail[i - 1];
      }
    }
  }

  /** The list is in ascending order of priority. */
  lemma {:induction false} OrderedByPriorityIsSorted(rows: map<Guid, ToDoEntity>)
    ensures SortedByPriority(OrderedByPriority(rows))
    decreases |rows|
  {
    if |rows| > 0 {
      var k := First(rows);
      var rest := rows - {k};
      assert rest.Keys == rows.Keys - {k};
      OrderedByPriorityIsSorted(rest);
      OrderedByPriorityListsEveryRow(rest);
      var tail := OrderedByPriority(rest);
      forall i | 0 <= i < |tail| ensures rows[k].priority <= tail[i].priority {
        var k2 :| k2 in rest && rest[k2] == tail[i];
        assert ListedNoLater(rows, k, k2);
      }
      PrependKeepsSorted(rows[k], tail);
    }
  }

  /** `GetAllOrderedByPriorityAsNoTrackingAsync()`. */
  function ListRows(w: World, engine: Engine): (r: Outcome<seq<ToDoEntity>>)
    ensures r.Returned? ==> r.value == OrderedByPriority(w.rows)
    ensures r.Threw? <==> engine.queryFault.Some?
    ensures r.Threw? ==> r.exception == engine.queryFault.value
  {
    if engine.queryFault.Some? then Threw(engine.queryFault.value)
    else Returned(OrderedByPriority(w.rows))
  }

  // ---------------------------------------------------------------------------
  // Writes

  /** `AddAsync(entity)`: the entity is tracked as Added; nothing is written yet. */
  function TrackAdded(w: World, entity: ToDoEntity): (r: World)
    ensures r.rows == w.rows && r.clockReads == w.clockReads
    ensures |r.entries| == |w.entries| + 1 && r.entries[..|w.entries|] == w.entries
    ensures r.entries[|w.entries|] == Entry(entity, entity, Added, [])
  {
    w.(entries := w.entries + [Entry(entity, entity, Added, [])])
  }

  /** An added entity is always among the rows the next save writes. */
  lemma TrackedAddIsPending(w: World, entity: ToDoEntity)
    ensures PendingCount(DetectChanges(TrackAdded(w, entity).entries)) > 0
  {
    var entries := TrackAdded(w, entity).entries;
    var n := |entries|;
    var detected := DetectChanges(entries);
    DetectChangesAt(entries, n - 1);
    assert IsPending(detected[n - 1]);
  }

  /** `DeleteAsync(id)`: `ExecuteDelete` removes the rows with that key straight from the
      table, bypassing the change tracker, and returns how many it removed. */
  function DeleteRows(w: World, id: Guid, engine: Engine): (r: (Outcome<int>, World))
    ensures r.0.Threw? <==> engine.queryFault.Some?
    ensures r.0.Threw? ==> r.0.exception == engine.queryFault.value && r.1 == w
    ensures r.0.Returned? ==>
      && r.1 == w.(rows := r.1.rows)
      && r.1.rows.Keys == w.rows.Keys - {id}
      && (forall k :: k in r.1.rows ==> r.1.rows[k] == w.rows[k])
      && r.0.value == |w.rows| - |r.1.rows|
      && (r.0.value == 0 <==> id !in w.rows)
  {
    if engine.queryFault.Some? then (Threw(engine.queryFault.value), w)
    else
      var rows := w.rows - {id};
      assert rows.Keys == w.rows.Keys - {id};
      (Returned(if id in w.rows then 1 else 0), w.(rows := rows))
  }

  /** An entry the save writes: anything not Unchanged, or with a changed owned reference. */
  predicate IsPending(e: Entry) {
    e.state != Unchanged || HasChangedOwnedEntities(e)
  }

  /** The number of rows a save writes: one per pending entry. */
  function PendingCount(entries: seq<Entry>): nat {
    if entries == [] then 0
    else PendingCount(entries[..|entries| - 1]) + (if IsPending(entries[|entries| - 1]) then 1 else 0)
  }

  /** The table after writing one entry. */
  function CommitEntry(rows: map<Guid, ToDoEntity>, e: Entry): map<Guid, ToDoEntity> {
    if e.state == Deleted then rows - {e.entity.id}
    else if IsPending(e) then rows[e.entity.id := e.entity]
    else rows
  }

  /** The table after writing every entry, in tracking order. */
  function Committed(rows: map<Guid, ToDoEntity>, entries: seq<Entry>): map<Guid, ToDoEntity>
    decreases |entries|
  {
    if entries == [] then rows else Committed(CommitEntry(rows, entries[0]), entries[1..])
  }

  /** A reference after its target's changes are accepted. */
  function AcceptReference(r: ReferenceEntry): ReferenceEntry {
    if r.target.Some? then r.(target := Some(r.target.value.(state := Unchanged))) else r
  }

  /** Every reference after the save. */
  function AcceptReferences(refs: seq<ReferenceEntry>): (r: seq<ReferenceEntry>)
    ensures |r| == |refs| && forall i :: 0 <= i < |refs| ==> r[i] == AcceptReference(refs[i])
  {
    seq(|refs|, i requires 0 <= i < |refs| => AcceptReference(refs[i]))
  }

  /** The tracker after a successful save (`AcceptAllChanges`): deleted entries are
      detached, every other entry and every owned target is Unchanged, and the current
      values become the snapshot. */
  function AcceptAll(entries: seq<Entry>): (r: seq<Entry>)
    ensures |r| <= |entries|
  {
    if entries == [] then []
    else
      var e := entries[0];
      (if e.state == Deleted then []
       else [e.(original := e.entity, state := Unchanged, references := AcceptReferences(e.references))])
      + AcceptAll(entries[1..])
  }

  /** `SaveChangesAsync()`: the interceptor detects changes and stamps the entries first;
      then the engine
      throws, writes nothing and reports 0, or writes every pending entry, reports how many,
      and the tracker accepts the changes. */
  function SaveAll(w: World, engine: Engine, ticks: nat -> Instant, userId: Guid): (r: (Outcome<int>, World))
    ensures r.0.Threw? <==> engine.saveFault.Some?
    ensures r.0.Threw? ==> r.0.exception == engine.saveFault.value
    ensures r.1.clockReads == w.clockReads + Processed(DetectChanges(w.entries))
    ensures r.0.Returned? && engine.saveWrites ==> r.0.value == PendingCount(DetectChanges(w.entries))
    ensures r.0.Returned? && !engine.saveWrites ==> r.0.value == 0
    ensures !(r.0.Returned? && engine.saveWrites) ==> r.1.rows == w.rows
    ensures r.0.Returned? && engine.saveWrites ==> forall i :: 0 <= i < |r.1.entries| ==> !IsPending(r.1.entries[i])
    ensures r.0.Returned? && engine.saveWrites ==>
      r.1.rows == Committed(w.rows, Audited(DetectChanges(w.entries), userId, ticks, w.clockReads))
  {
    var detected := DetectChanges(w.entries);
    AuditKeepsPendingCount(detected, userId, ticks, w.clockReads);
    AcceptAllLeavesNothingPending(Audited(detected, userId, ticks, w.clockReads));
    var stamped := Audited(detected, userId, ticks, w.clockReads);
    var w1 := w.(entries := stamped, clockReads := w.clockReads + Processed(detected));
    if engine.saveFault.Some? then (Threw(engine.saveFault.value), w1)
    else if !engine.saveWrites then (Returned(0), w1)
    else (Returned(PendingCount(stamped)), w1.(rows := Committed(w.rows, stamped), entries := AcceptAll(stamped)))
  }

  // ---------------------------------------------------------------------------
  // Properties of the save

  /** Stamping changes no entry's state or references, so it changes no pending count. */
  lemma {:induction false} AuditKeepsPendingCount(entries: seq<Entry>, userId: Guid, ticks: nat -> Instant, start: nat)
    ensures PendingCount(Audited(entries, userId, ticks, start)) == PendingCount(entries)
  {
    if entries != [] {
      var init := entries[..|entries| - 1];
      var s := Audited(entries, userId, ticks, start);
      AuditKeepsPendingCount(init, userId, ticks, start);
      assert s[..|s| - 1] == Audited(init, userId, ticks, start);
      var last := entries[|entries| - 1];
      assert s[|s| - 1].references == last.references;
    }
  }

  /** After a successful save nothing is pending any more. */
  lemma {:induction false} AcceptAllLeavesNothingPending(entries: seq<Entry>)
    ensures forall i :: 0 <= i < |AcceptAll(entries)| ==> !IsPending(AcceptAll(entries)[i])
  {
    if entries != [] {
      AcceptAllLeavesNothingPending(entries[1..]);
      var e := entries[0];
      if e.state != Deleted {
        var a := e.(original := e.entity, state := Unchanged, references := AcceptReferences(e.references));
        assert !HasChangedOwnedEntities(a) by {
          forall i | 0 <= i < |a.references| ensures !IsChangedOwnedReference(a.references[i]) {
            assert a.references[i] == AcceptReference(e.references[i]);
          }
        }
        assert AcceptAll(entries) == [a] + AcceptAll(entries[1..]);
      }
    }
  }

  /** The tracker's identity invariant: no two entries hold the same key. */
  predicate DistinctKeys(entries: seq<Entry>) {
    forall i, j :: 0 <= i < j < |entries| ==> entries[i].entity.id != entries[j].entity.id
  }

  /** Whether some entry the save writes has key `k`. */
  predicate Touches(entries: seq<Entry>, k: Guid) {
    exists i :: 0 <= i < |entries| && IsPending(entries[i]) && entries[i].entity.id == k
  }

  /** Writing a tracker with one entry per key stores each pending entry's values under
      its key, removes each deleted entry's key, and keeps every row that no pending entry
      touches. */
  lemma {:induction false} CommittedWritesPendingEntries(rows: map<Guid, ToDoEntity>, entries: seq<Entry>)
    requires DistinctKeys(entries)
    ensures forall i :: 0 <= i < |entries| && IsPending(entries[i]) && entries[i].state != Deleted ==>
      entries[i].entity.id in Committed(rows, entries) && Committed(rows, entries)[entries[i].entity.id] == entries[i].entity
    ensures forall i :: 0 <= i < |entries| && entries[i].state == Deleted ==> entries[i].entity.id !in Committed(rows, entries)
    ensures forall k :: !Touches(entries, k) ==> (k in Committed(rows, entries) <==> k in rows)
    ensures forall k :: !Touches(entries, k) && k in rows ==> Committed(rows, entries)[k] == rows[k]
    decreases |entries|
  {
    if entries != [] {
      var e := entries[0];
      var tail := entries[1..];
      var rows1 := CommitEntry(rows, e);
      assert DistinctKeys(tail) by {
        forall i, j | 0 <= i < j < |tail| ensures tail[i].entity.id != tail[j].entity.id {
          assert tail[i] == entries[i + 1] && tail[j] == entries[j + 1];
        }
      }
      CommittedWritesPendingEntries(rows1, tail);
      var c := Committed(rows, entries);
      assert c == Committed(rows1, tail);
      assert !Touches(tail, e.entity.id) by {
        forall i | 0 <= i < |tail| ensures tail[i].entity.id != e.entity.id {
          assert tail[i] == entries[i + 1];
        }
      }
      forall i | 0 <= i < |entries| && IsPending(entries[i]) && entries[i].state != Deleted
        ensures entries[i].entity.id in c && c[entries[i].entity.id] == entries[i].entity
      {
        if i > 0 {
          assert entries[i] == tail[i - 1];
        }
      }
      forall i | 0 <= i < |entries| && entries[i].state == Deleted
        ensures entries[i].entity.id !in c
      {
        if i > 0 {
          assert entries[i] == tail[i - 1];
        }
      }
      forall k | !Touches(entries, k)
        ensures (k in c <==> k in rows) && (k in rows ==> c[k] == rows[k])
      {
        assert !Touches(tail, k) by {
          forall i | 0 <= i < |tail| && IsPending(tail[i]) ensures tail[i].entity.id != k {
            assert tail[i] == entries[i + 1];
          }
        }
        assert !IsPending(e) || e.entity.id != k;
      }
    }
  }

  /** Change detection and stamping keep every entry's key at its position. */
  lemma StampingKeepsKeys(entries: seq<Entry>, userId: Guid, ticks: nat -> Instant, start: nat)
    ensures var stamped := Audited(DetectChanges(entries), userId, ticks, start);
            forall i :: 0 <= i < |entries| ==> stamped[i].entity.id == entries[i].entity.id
  {
    var detected := DetectChanges(entries);
    var stamped := Audited(detected, userId, ticks, start);
    forall i | 0 <= i < |entries| ensures stamped[i].entity.id == entries[i].entity.id {
      DetectChangesAt(entries, i);
      AuditedAt(detected, userId, ticks, start, i);
      AuditEntryChangesOnlyAuditFields(detected[i], userId, ticks(start + Processed(detected[..i])));
    }
  }

  /** A writing save persists every pending change of a tracker with one entry per key:
      each pending entry, as stamped, is stored under its key, each deleted one is gone,
      and every row that no pending entry touches is kept. */
  lemma SaveWritesEveryPendingEntry(w: World, engine: Engine, ticks: nat -> Instant, userId: Guid)
    requires engine.saveFault.None? && engine.saveWrites && DistinctKeys(w.entries)
    ensures var stamped := Audited(DetectChanges(w.entries), userId, ticks, w.clockReads);
            var rows := SaveAll(w, engine, ticks, userId).1.rows;
            && |stamped| == |w.entries|
            && (forall i :: 0 <= i < |stamped| ==> stamped[i].entity.id == w.entries[i].entity.id)
            && (forall i :: 0 <= i < |stamped| && IsPending(stamped[i]) && stamped[i].state != Deleted ==>
                  stamped[i].entity.id in rows && rows[stamped[i].entity.id] == stamped[i].entity)
            && (forall i :: 0 <= i < |stamped| && stamped[i].state == Deleted ==> stamped[i].entity.id !in rows)
            && (forall k :: !Touches(stamped, k) ==> (k in rows <==> k in w.rows))
            && (forall k :: !Touches(stamped, k) && k in w.rows ==> rows[k] == w.rows[k])
  {
    var stamped := Audited(DetectChanges(w.entries), userId, ticks, w.clockReads);
    StampingKeepsKeys(w.entries, userId, ticks, w.clockReads);
    assert DistinctKeys(stamped);
    CommittedWritesPendingEntries(w.rows, stamped);
  }

  /** Change detection over a tracker holding one entry. */
  lemma DetectChangesOfOne(e: Entry)
    ensures DetectChanges([e]) == [DetectEntryChanges(e)]
  {
    assert [e][1..] == [];
  }

  /** The audit pass over a tracker holding one entry reads the clock once if the entry
      is audited and not at all otherwise, with the first reading. */
  lemma AuditedOfOne(e: Entry, userId: Guid, ticks: nat -> Instant, start: nat)
    ensures Processed([e]) == if IsAudited(e) then 1 else 0
    ensures Audited([e], userId, ticks, start) == [AuditEntry(e, userId, ticks(start))]
  {
    assert [e][..0] == [];
    assert start + Processed([e][..0]) == start;
  }

  /** Writing and accepting a tracker holding one entry that is neither deleted nor has
      references. */
  lemma SaveOfOne(rows: map<Guid, ToDoEntity>, e: Entry)
    requires e.references == [] && e.state != Deleted
    ensures PendingCount([e]) == if IsPending(e) then 1 else 0
    ensures Committed(rows, [e]) == if IsPending(e) then rows[e.entity.id := e.entity] else rows
    ensures AcceptAll([e]) == [Entry(e.entity, e.entity, Unchanged, [])]
  {
    assert [e][..0] == [] && [e][1..] == [];
    assert AcceptReferences(e.references) == [];
  }

  /** A save that writes, from a tracker holding one entry that is added or has changed
      values, stores exactly that entity, stamped, under its key, reports one row and keeps
      the entity tracked as Unchanged. */
  lemma SaveOfOneChangedEntry(rows: map<Guid, ToDoEntity>, start: nat, e: Entry, engine: Engine, ticks: nat -> Instant, userId: Guid)
    requires engine.saveFault.None? && engine.saveWrites
    requires e.references == [] && DetectEntryChanges(e).state in {Added, Modified}
    ensures var stamped := Stamp(DetectEntryChanges(e), userId, ticks(start)).entity;
            SaveAll(World(rows, [e], start), engine, ticks, userId) ==
            (Returned(1), World(rows[e.entity.id := stamped], [Entry(stamped, stamped, Unchanged, [])], start + 1))
  {
    var d := DetectEntryChanges(e);
    var stamped := Stamp(d, userId, ticks(start));
    DetectChangesOfOne(e);
    AuditedOfOne(d, userId, ticks, start);
    assert Audited([d], userId, ticks, start) == [stamped];
    SaveOfOne(rows, stamped);
  }

  /** In a fresh request scope, a writing save of one added entity stores it, stamped as
      created and last modified by the current user at the next clock reading, reports one
      row and keeps it tracked as Unchanged. */
  lemma SaveOfOneAddedEntity(w: World, entity: ToDoEntity, engine: Engine, ticks: nat -> Instant, userId: Guid)
    requires w.entries == [] && engine.saveFault.None? && engine.saveWrites
    ensures var now := ticks(w.clockReads);
            var stamped := entity.(audit := entity.audit.(created := Some(now), createdBy := Some(userId),
                                                          lastModified := Some(now), lastModifiedBy := Some(userId)));
            SaveAll(TrackAdded(w, entity), engine, ticks, userId) ==
            (Returned(1), World(w.rows[entity.id := stamped], [Entry(stamped, stamped, Unchanged, [])], w.clockReads + 1))
  {
    var e := Entry(entity, entity, Added, []);
    assert TrackAdded(w, entity) == World(w.rows, [e], w.clockReads);
    SaveOfOneChangedEntry(w.rows, w.clockReads, e, engine, ticks, userId);
  }

  /** A save from a tracker holding one entry whose values equal its snapshot writes
      nothing, reports zero rows and reads no clock, even when the engine would write. */
  lemma SaveOfOneUnchangedEntry(rows: map<Guid, ToDoEntity>, start: nat, e: Entry, engine: Engine, ticks: nat -> Instant, userId: Guid)
    requires engine.saveFault.None?
    requires e.references == [] && e.state == Unchanged && e.entity == e.original
    ensures SaveAll(World(rows, [e], start), engine, ticks, userId) == (Returned(0), World(rows, [e], start))
  {
    DetectChangesOfOne(e);
    assert DetectEntryChanges(e) == e;
    assert !IsAudited(e) && !IsPending(e);
    AuditedOfOne(e, userId, ticks, start);
    SaveOfOne(rows, e);
  }

  /** The repository the handlers use, over the scoped context and the interceptor that
      the context runs before every save. */
  class ToDoRepository {
    const context: DbContext
    const interceptor: AuditableEntityInterceptor

    constructor (context: DbContext, interceptor: AuditableEntityInterceptor)
      ensures this.context == context && this.interceptor == interceptor
    {
      this.context := context;
      this.interceptor := interceptor;
    }

    /** The observable state. */
    function State(): World
      reads context, interceptor.timeProvider
    {
      World(context.rows, context.entries, interceptor.timeProvider.readCount)
    }

    /** The readings of the injected clock. */
    function Ticks(): nat -> Instant {
      interceptor.timeProvider.ticks
    }

    /** The current user the interceptor stamps. */
    function UserId(): Guid {
      interceptor.userId
    }

    method GetByIdAsync(id: Guid, engine: Engine) returns (o: Outcome<Option<nat>>)
      modifies context
      ensures (o, State()) == FetchTracked(old(State()), id, engine)
    {
      if engine.queryFault.Some? {
        return Threw(engine.queryFault.value);
      }
      if id !in context.rows {
        return Returned(None);
      }
      var i := FindTracked(context.entries, id);
      if i.Some? {
        return Returned(i);
      }
      context.entries := context.entries + [Entry(context.rows[id], context.rows[id], Unchanged, [])];
      o := Returned(Some(|context.entries| - 1));
    }

    method GetByIdAsNoTrackingAsync(id: Guid, engine: Engine) returns (o: Outcome<Option<ToDoEntity>>)
      ensures o == FindRow(State(), id, engine)
    {
      if engine.queryFault.Some? {
        return Threw(engine.queryFault.value);
      }
      o := Returned(if id in context.rows then Some(context.rows[id]) else None);
    }

    method GetAllOrderedByPriorityAsNoTrackingAsync(engine: Engine) returns (o: Outcome<seq<ToDoEntity>>)
      ensures o == ListRows(State(), engine)
    {
      if engine.queryFault.Some? {
        return Threw(engine.queryFault.value);
      }
      o := Returned(OrderedByPriority(context.rows));
    }

    method AddAsync(entity: ToDoEntity) returns (added: ToDoEntity)
      modifies context
      ensures added == entity
      ensures State() == TrackAdded(old(State()), entity)
    {
      context.entries := context.entries + [Entry(entity, entity, Added, [])];
      added := entity;
    }

    method DeleteAsync(id: Guid, engine: Engine) returns (o: Outcome<int>)
      modifies context
      ensures (o, State()) == DeleteRows(old(State()), id, engine)
    {
      if engine.queryFault.Some? {
        return Threw(engine.queryFault.value);
      }
      var removed := if id in context.rows then 1 else 0;
      context.rows := context.rows - {id};
      o := Returned(removed);
    }

    method SaveChangesAsync(engine: Engine) returns (o: Outcome<int>)
      modifies context, interceptor.timeProvider
      ensures (o, State()) == SaveAll(old(State()), engine, Ticks(), UserId())
    {
      ghost var before := State();
      var _ := interceptor.SavingChangesAsync(context, Proceed);
      ghost var stamped := context.entries;
      ghost var saved := SaveAll(before, engine, Ticks(), UserId());
      assert saved.1.clockReads == State().clockReads;
      if engine.saveFault.Some? {
        return Threw(engine.saveFault.value);
      }
      if !engine.saveWrites {
        return Returned(0);
      }
      assert saved == (Returned(PendingCount(stamped)),
                       World(Committed(before.rows, stamped), AcceptAll(stamped), saved.1.clockReads));
      var written := PendingCount(context.entries);
      context.rows := Committed(context.rows, context.entries);
      context.entries := AcceptAll(context.entries);
      o := Returned(written);
    }
  }
}
