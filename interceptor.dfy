/** `AuditableEntityInterceptor`: before every save, stamps the audit fields of each
    tracked auditable entity that is being added or modified. */
module Interceptors {
  import opened Common
  import opened Domain
  import opened Data

  /** One reference of `HasChangedOwnedEntities`' `Any` predicate: a loaded target of an
      owned type that is itself Added or Modified. */
  predicate IsChangedOwnedReference(r: ReferenceEntry) {
    r.target.Some? && r.target.value.isOwned &&
    (r.target.value.state == Added || r.target.value.state == Modified)
  }

  /** `references.Any(IsChangedOwnedReference)`. */
  function AnyChangedOwned(refs: seq<ReferenceEntry>): (b: bool)
    ensures b <==> exists i :: 0 <= i < |refs| && IsChangedOwnedReference(refs[i])
  {
    if refs == [] then false
    else if IsChangedOwnedReference(refs[0]) then true
    else
      assert forall i :: 1 <= i < |refs| ==> refs[i] == refs[1..][i - 1];
      AnyChangedOwned(refs[1..])
  }

  /** `entry.HasChangedOwnedEntities()`. */
  function HasChangedOwnedEntities(e: Entry): (b: bool)
    ensures b <==> exists i :: 0 <= i < |e.references| && IsChangedOwnedReference(e.references[i])
  {
    AnyChangedOwned(e.references)
  }

  /** An entry the loop does not skip: it is Added or Modified, or one of its owned
      references changed. */
  function IsAudited(e: Entry): (b: bool)
    ensures b <==>
      || e.state == Added || e.state == Modified
      || exists i :: 0 <= i < |e.references| && IsChangedOwnedReference(e.references[i])
  {
    e.state == Added || e.state == Modified || HasChangedOwnedEntities(e)
  }

  /** The assignments the loop makes to one entry it does not skip, with `now` the
      clock value read for it: the last-modified pair always, the created pair only for
      an Added entry; nothing else about the entry changes. */
  function Stamp(e: Entry, userId: Guid, now: Instant): (r: Entry)
    ensures r == e.(entity := e.entity.(audit := r.entity.audit))
    ensures r.entity.audit.lastModified == Some(now) && r.entity.audit.lastModifiedBy == Some(userId)
    ensures e.state == Added ==> r.entity.audit.created == Some(now) && r.entity.audit.createdBy == Some(userId)
    ensures e.state != Added ==>
      r.entity.audit.created == e.entity.audit.created && r.entity.audit.createdBy == e.entity.audit.createdBy
  {
    var a := e.entity.audit;
    var created := if e.state == Added then a.(createdBy := Some(userId), created := Some(now)) else a;
    e.(entity := e.entity.(audit := created.(lastModifiedBy := Some(userId), lastModified := Some(now))))
  }

  /** What the loop leaves in an entry, given the clock value it would read for it. */
  function AuditEntry(e: Entry, userId: Guid, now: Instant): Entry
  {
    if IsAudited(e) then Stamp(e, userId, now) else e
  }

  /** One visit of the loop: a skipped entry stays as it was; a stamped one changes only
      in its audit fields, gets the last-modified pair, and the created pair only when
      it is Added. */
  lemma AuditEntryChangesOnlyAuditFields(e: Entry, userId: Guid, now: Instant)
    ensures var r := AuditEntry(e, userId, now);
            && (!IsAudited(e) ==> r == e)
            && r == e.(entity := e.entity.(audit := r.entity.audit))
            && (IsAudited(e) ==> r.entity.audit.lastModified == Some(now) && r.entity.audit.lastModifiedBy == Some(userId))
            && (IsAudited(e) && e.state == Added ==> r.entity.audit.created == Some(now) && r.entity.audit.createdBy == Some(userId))
            && (e.state != Added ==>
                  r.entity.audit.created == e.entity.audit.created && r.entity.audit.createdBy == e.entity.audit.createdBy)
  {
  }

  /** How many entries of `entries` the loop stamps, which is how many times it reads
      the clock. */
  function Processed(entries: seq<Entry>): (n: nat)
  {
    if entries == [] then 0
    else Processed(entries[..|entries| - 1]) + (if IsAudited(entries[|entries| - 1]) then 1 else 0)
  }

  /** The entries after the whole loop, when the clock has been read `start` times
      before it: each stamped entry gets the next clock reading. */
  function Audited(entries: seq<Entry>, userId: Guid, ticks: nat -> Instant, start: nat): (r: seq<Entry>)
    ensures |r| == |entries|
  {
    if entries == [] then []
    else
      var init := entries[..|entries| - 1];
      Audited(init, userId, ticks, start) +
        [AuditEntry(entries[|entries| - 1], userId, ticks(start + Processed(init)))]
  }

  /** Entry `k` after the loop is entry `k` stamped with the clock reading numbered by
      the count of stamped entries before it; the loop keeps every entry in place. */
  lemma {:induction false} AuditedAt(entries: seq<Entry>, userId: Guid, ticks: nat -> Instant, start: nat, k: nat)
    requires k < |entries|
    ensures Audited(entries, userId, ticks, start)[k] ==
            AuditEntry(entries[k], userId, ticks(start + Processed(entries[..k])))
  {
    var init := entries[..|entries| - 1];
    var last := entries[|entries| - 1];
    var prior := Audited(init, userId, ticks, start);
    assert Audited(entries, userId, ticks, start) ==
           prior + [AuditEntry(last, userId, ticks(start + Processed(init)))];
    if k < |init| {
      AuditedAt(init, userId, ticks, start, k);
      assert init[..k] == entries[..k];
      var now := ticks(start + Processed(init[..k]));
      assert now == ticks(start + Processed(entries[..k]));
      assert Audited(entries, userId, ticks, start)[k] == prior[k] == AuditEntry(init[k], userId, now);
      assert init[k] == entries[k];
    } else {
      assert entries[..k] == init && entries[k] == last;
    }
  }

  /** The tracker after the loop has visited its first `k` entries: those stamped, the
      rest as they were. */
  function AuditedPrefix(entries: seq<Entry>, userId: Guid, ticks: nat -> Instant, start: nat, k: nat): (r: seq<Entry>)
    requires k <= |entries|
    ensures |r| == |entries|
  {
    Audited(entries[..k], userId, ticks, start) + entries[k..]
  }

  /** Before the loop nothing is stamped, and after it every entry is. */
  lemma AuditedPrefixEnds(entries: seq<Entry>, userId: Guid, ticks: nat -> Instant, start: nat)
    ensures AuditedPrefix(entries, userId, ticks, start, 0) == entries
    ensures AuditedPrefix(entries, userId, ticks, start, |entries|) == Audited(entries, userId, ticks, start)
  {
    assert entries[..0] == [] && entries[0..] == entries;
    assert entries[..|entries|] == entries && entries[|entries|..] == [];
  }

  /** One pass of the loop: the entry it visits is still as it was, and splicing in that
      entry's stamp, taken at the clock reading after those of the prefix, gives the
      tracker with one more entry visited. */
  lemma AuditedPrefixStep(entries: seq<Entry>, userId: Guid, ticks: nat -> Instant, start: nat, k: nat, count: nat)
    requires k < |entries| && count == start + Processed(entries[..k])
    ensures AuditedPrefix(entries, userId, ticks, start, k)[k] == entries[k]
    ensures AuditedPrefix(entries, userId, ticks, start, k)[k := AuditEntry(entries[k], userId, ticks(count))] ==
            AuditedPrefix(entries, userId, ticks, start, k + 1)
  {
    assert entries[..k + 1][..k] == entries[..k];
  }

  /** Counting stamped entries one step further adds one exactly when that entry is stamped. */
  lemma ProcessedStep(entries: seq<Entry>, k: nat)
    requires k < |entries|
    ensures Processed(entries[..k + 1]) == Processed(entries[..k]) + (if IsAudited(entries[k]) then 1 else 0)
  {
    assert entries[..k + 1][..k] == entries[..k];
  }

  /** A stamped entry reads the clock strictly before every later entry does. */
  lemma {:induction false} ProcessedIncreases(entries: seq<Entry>, k1: nat, k2: nat)
    requires k1 < k2 <= |entries| && IsAudited(entries[k1])
    ensures Processed(entries[..k1]) < Processed(entries[..k2])
  {
    ProcessedStep(entries, k2 - 1);
    if k2 - 1 > k1 {
      ProcessedIncreases(entries, k1, k2 - 1);
    }
  }

  /** The number of clock reads never exceeds the number of entries. */
  lemma {:induction false} ProcessedBounded(entries: seq<Entry>)
    ensures Processed(entries) <= |entries|
  {
    if entries != [] {
      ProcessedBounded(entries[..|entries| - 1]);
    }
  }

  /** An entry that is neither Added nor Modified and has no changed owned reference is
      left exactly as it was. */
  lemma SkippedEntryUntouched(entries: seq<Entry>, userId: Guid, ticks: nat -> Instant, start: nat, k: nat)
    requires k < |entries| && !IsAudited(entries[k])
    ensures Audited(entries, userId, ticks, start)[k] == entries[k]
  {
    AuditedAt(entries, userId, ticks, start, k);
  }

  /** Every stamped entry gets the current user as `LastModifiedBy` and its own clock
      reading as `LastModified`. */
  lemma StampedEntryLastModified(entries: seq<Entry>, userId: Guid, ticks: nat -> Instant, start: nat, k: nat)
    requires k < |entries| && IsAudited(entries[k])
    ensures Audited(entries, userId, ticks, start)[k].entity.audit.lastModifiedBy == Some(userId)
    ensures Audited(entries, userId, ticks, start)[k].entity.audit.lastModified ==
            Some(ticks(start + Processed(entries[..k])))
  {
    AuditedAt(entries, userId, ticks, start, k);
  }

  /** An Added entry gets the same user and instant for its creation and its last
      modification. */
  lemma AddedEntryCreatedIsLastModified(entries: seq<Entry>, userId: Guid, ticks: nat -> Instant, start: nat, k: nat)
    requires k < |entries| && entries[k].state == Added
    ensures var a := Audited(entries, userId, ticks, start)[k].entity.audit;
            a.createdBy == a.lastModifiedBy == Some(userId) && a.created == a.lastModified != None
  {
    AuditedAt(entries, userId, ticks, start, k);
  }

  /** A stamped entry that is not Added keeps its creation stamp. */
  lemma ModifiedEntryKeepsCreated(entries: seq<Entry>, userId: Guid, ticks: nat -> Instant, start: nat, k: nat)
    requires k < |entries| && entries[k].state != Added
    ensures Audited(entries, userId, ticks, start)[k].entity.audit.created == entries[k].entity.audit.created
    ensures Audited(entries, userId, ticks, start)[k].entity.audit.createdBy == entries[k].entity.audit.createdBy
  {
    AuditedAt(entries, userId, ticks, start, k);
  }

  /** Only the four audit fields change: every entry keeps its state, its references and
      its business fields. */
  lemma OnlyAuditFieldsChange(entries: seq<Entry>, userId: Guid, ticks: nat -> Instant, start: nat, k: nat)
    requires k < |entries|
    ensures var r := Audited(entries, userId, ticks, start)[k];
            r.state == entries[k].state && r.references == entries[k].references &&
            r.entity == entries[k].entity.(audit := r.entity.audit)
  {
    AuditedAt(entries, userId, ticks, start, k);
  }

  /** With a clock that moves forward between reads, two stamped entries of one save get
      different `LastModified` instants, ordered as the entries are: the instant is read per
      entry, not once per save. */
  lemma AdvancingClockGivesDistinctStamps(entries: seq<Entry>, userId: Guid, ticks: nat -> Instant, start: nat, k1: nat, k2: nat)
    requires k1 < k2 < |entries| && IsAudited(entries[k1]) && IsAudited(entries[k2])
    requires forall n: nat, m: nat :: n < m ==> ticks(n) < ticks(m)
    ensures var r := Audited(entries, userId, ticks, start);
            r[k1].entity.audit.lastModified.Some? && r[k2].entity.audit.lastModified.Some? &&
            r[k1].entity.audit.lastModified.value < r[k2].entity.audit.lastModified.value
  {
    AuditedAt(entries, userId, ticks, start, k1);
    AuditedAt(entries, userId, ticks, start, k2);
    ProcessedIncreases(entries, k1, k2);
  }

  /** Only a clock that returns the same instant on every read gives one save a single
      shared instant: then every stamped entry carries it. */
  lemma ConstantClockSharesStamp(entries: seq<Entry>, userId: Guid, now: Instant, start: nat, k: nat)
    requires k < |entries| && IsAudited(entries[k])
    ensures Audited(entries, userId, _ => now, start)[k].entity.audit.lastModified == Some(now)
  {
    AuditedAt(entries, userId, _ => now, start, k);
  }

  /** The interceptor with its injected clock and current user. `userId` is `IUser.Id`,
      which is `Guid.Empty` when nobody is authenticated. */
  class AuditableEntityInterceptor {
    const timeProvider: Clock
    const userId: Guid

    constructor (timeProvider: Clock, userId: Guid)
      ensures this.timeProvider == timeProvider && this.userId == userId
    {
      this.timeProvider := timeProvider;
      this.userId := userId;
    }

    /** One pass of `UpdateEntities`' loop: entry `i` is skipped unless it is audited;
        otherwise the clock is read once and the entry is stamped with that reading. */
    method StampEntry(context: DbContext, i: nat)
      requires i < |context.entries|
      modifies context, timeProvider
      ensures context.rows == old(context.rows)
      ensures context.entries == old(context.entries)[i := AuditEntry(old(context.entries[i]), userId, timeProvider.ticks(old(timeProvider.readCount)))]
      ensures timeProvider.readCount == old(timeProvider.readCount) + (if IsAudited(old(context.entries[i])) then 1 else 0)
    {
      var entry := context.entries[i];
      if !IsAudited(entry) {
        assert context.entries == context.entries[i := entry];
        return;
      }
      var utcNow := timeProvider.GetUtcNow();
      var audit := entry.entity.audit;
      if entry.state == Added {
        audit := audit.(createdBy := Some(userId), created := Some(utcNow));
      }
      audit := audit.(lastModifiedBy := Some(userId), lastModified := Some(utcNow));
      context.entries := context.entries[i := entry.(entity := entry.entity.(audit := audit))];
    }

    /** `UpdateEntities(context)`: nothing happens without a context; otherwise enumerating
        the tracker detects changes first, then the entries become `Audited(...)` and the
        clock is read once per stamped entry. */
    method UpdateEntities(context: DbContext?)
      modifies context, timeProvider
      ensures context == null ==> timeProvider.readCount == old(timeProvider.readCount)
      ensures context != null ==>
        && context.rows == old(context.rows)
        && context.entries == Audited(DetectChanges(old(context.entries)), userId, timeProvider.ticks, old(timeProvider.readCount))
        && timeProvider.readCount == old(timeProvider.readCount) + Processed(DetectChanges(old(context.entries)))
    {
      if context == null {
        return;
      }
      context.entries := DetectChanges(context.entries);
      ghost var original := context.entries;
      ghost var start := timeProvider.readCount;
      ghost var ticks := timeProvider.ticks;
      AuditedPrefixEnds(original, userId, ticks, start);
      var i := 0;
      while i < |context.entries|
        invariant 0 <= i <= |context.entries| == |original|
        invariant context.rows == old(context.rows)
        invariant context.entries == AuditedPrefix(original, userId, ticks, start, i)
        invariant timeProvider.readCount == start + Processed(original[..i])
      {
        ghost var count := timeProvider.readCount;
        StampEntry(context, i);
        AuditedPrefixStep(original, userId, ticks, start, i, count);
        ProcessedStep(original, i);
        i := i + 1;
      }
      assert original[..i] == original;
    }

    /** `SavingChanges`: stamps the entries, then hands the interception result on as the
        base interceptor does. */
    method SavingChanges<R>(context: DbContext?, result: R) returns (r: R)
      modifies context, timeProvider
      ensures r == result
      ensures context == null ==> timeProvider.readCount == old(timeProvider.readCount)
      ensures context != null ==>
        && context.rows == old(context.rows)
        && context.entries == Audited(DetectChanges(old(context.entries)), userId, timeProvider.ticks, old(timeProvider.readCount))
        && timeProvider.readCount == old(timeProvider.readCount) + Processed(DetectChanges(old(context.entries)))
    {
      UpdateEntities(context);
      r := result;
    }

    /** `SavingChangesAsync`: the same stamping as `SavingChanges`, then the same hand-on. */
    method SavingChangesAsync<R>(context: DbContext?, result: R) returns (r: R)
      modifies context, timeProvider
      ensures r == result
      ensures context == null ==> timeProvider.readCount == old(timeProvider.readCount)
      ensures context != null ==>
        && context.rows == old(context.rows)
        && context.entries == Audited(DetectChanges(old(context.entries)), userId, timeProvider.ticks, old(timeProvider.readCount))
        && timeProvider.readCount == old(timeProvider.readCount) + Processed(DetectChanges(old(context.entries)))
    {
      UpdateEntities(context);
      r := result;
    }
  }
}
