/** The parts of Entity Framework the core touches, as abstract state: the database rows,
    the change tracker's entries with their states, and the injected clock. */
module Data {
  import opened Common
  import opened Domain

  /** `EntityState` of a tracked entry (a detached entity is not in the tracker). */
  datatype EntityState = Unchanged | Deleted | Modified | Added

  /** The entry an entity's navigation reference points at: whether its type is an
      owned type, and its own state. */
  datatype TargetEntry = TargetEntry(isOwned: bool, state: EntityState)

  /** One `ReferenceEntry` of a tracked entry; `target` is `null` when nothing is loaded. */
  datatype ReferenceEntry = ReferenceEntry(target: Option<TargetEntry>)

  /** One change-tracker entry of an auditable entity: the entity's current values, the
      snapshot of its values when tracking began or the last save was accepted, its state
      and its references. */
  datatype Entry = Entry(entity: ToDoEntity, original: ToDoEntity, state: EntityState, references: seq<ReferenceEntry>)

  /** Snapshot change detection for one entry: an Unchanged entry whose current values
      differ from its snapshot becomes Modified; every other entry keeps its state. */
  function DetectEntryChanges(e: Entry): (r: Entry)
    ensures r.entity == e.entity && r.original == e.original && r.references == e.references
    ensures r.state == Modified <==> e.state == Modified || (e.state == Unchanged && e.entity != e.original)
    ensures r.state != Modified ==> r.state == e.state
  {
    if e.state == Unchanged && e.entity != e.original then e.(state := Modified) else e
  }

  /** `ChangeTracker.DetectChanges()`, which `ChangeTracker.Entries()` runs before it
      enumerates: change detection applied to every entry, in place. */
  function DetectChanges(entries: seq<Entry>): (r: seq<Entry>)
    ensures |r| == |entries|
  {
    if entries == [] then [] else [DetectEntryChanges(entries[0])] + DetectChanges(entries[1..])
  }

  /** Change detection leaves every entry at its position and looks at that entry alone. */
  lemma {:induction false} DetectChangesAt(entries: seq<Entry>, k: nat)
    requires k < |entries|
    ensures DetectChanges(entries)[k] == DetectEntryChanges(entries[k])
  {
    if k > 0 {
      DetectChangesAt(entries[1..], k - 1);
    }
  }

  /** EF's `InterceptionResult<int>` handed to a save interceptor: proceed with the save,
      or suppress it with a given result. */
  datatype InterceptionResult = Proceed | SuppressWith(result: int)

  /** The injected `TimeProvider`: `ticks(n)` is what the n-th call of `GetUtcNow()`
      returns, and `readCount` counts the calls made so far. */
  class Clock {
    const ticks: nat -> Instant
    var readCount: nat

    constructor (ticks: nat -> Instant)
      ensures this.ticks == ticks && readCount == 0
    {
      this.ticks := ticks;
      readCount := 0;
    }

    /** `timeProvider.GetUtcNow()`. */
    method GetUtcNow() returns (now: Instant)
      modifies this
      ensures now == ticks(old(readCount)) && readCount == old(readCount) + 1
    {
      now := ticks(readCount);
      readCount := readCount + 1;
    }
  }

  /** The scoped `ApplicationDbContext`: the to-do table's rows by primary key, and the
      change tracker's entries in tracking order. */
  class DbContext {
    var rows: map<Guid, ToDoEntity>
    var entries: seq<Entry>

    constructor (rows: map<Guid, ToDoEntity>)
      ensures this.rows == rows && entries == []
    {
      this.rows := rows;
      entries := [];
    }
  }
}
