/**
 * The generic repository over one entity type: each mutator stages the
 * entity in the context's change tracker and then runs the context's save
 * pipeline with the caller's `isCommit`; Attach only stages. The sparse
 * updates set the entry's state and then its per-property modified flags.
 */
module Repository {
  import opened Wrappers
  import opened EntityModel
  import opened ChangeTracker
  import opened SavePipeline
  import opened DbContext

  /** A repository call returns nothing; it either completes or throws. */
  function OutcomeOf(r: Result<int, SaveError>): Outcome<SaveError>
  {
    match r case Ok(_) => Pass case Err(e) => Fail(e)
  }

  class EfRepository {
    const context: ApplicationDbContext

    constructor(context: ApplicationDbContext)
      ensures this.context == context
    {
      this.context := context;
    }

    /** Runs the pipeline on the staged tracker `es`: the context's new state and effects, and the call's outcome. */
    ghost predicate RanPipeline(es: seq<Entry>, effects0: seq<Effect>, isCommit: bool, amb: Ambient, r: Outcome<SaveError>)
      reads this, context
    {
      var s := Save(es, context.authenticationEnabled, context.hasMediator, isCommit, amb);
      context.entries == s.entries && context.effects == effects0 + s.effects && r == OutcomeOf(s.result)
    }

    /**
     * A sparse update from `start`: the entry is replaced by `start` with the
     * named flags set to `flag`; a name that is no mapped property throws
     * (nothing is saved), otherwise the pipeline runs.
     */
    ghost predicate RanSparseUpdate(start: Entry, properties: seq<PropertyName>, flag: bool,
                                    entries0: seq<Entry>, effects0: seq<Effect>, isCommit: bool, amb: Ambient,
                                    r: Outcome<SaveError>)
      reads this, context
    {
      var marked := MarkProperties(start, properties, flag);
      var es := SetEntry(entries0, marked.0);
      match marked.1
      case Some(bad) => context.entries == es && context.effects == effects0 && r == Fail(InvalidProperty(bad))
      case None => RanPipeline(es, effects0, isCommit, amb, r)
    }

    /** `AddAsync`: stage as Added, then run the pipeline. */
    method Add(entity: Entity, amb: Ambient, isCommit: bool := true) returns (r: Outcome<SaveError>)
      requires context.Valid()
      modifies context
      ensures context.Valid()
      ensures RanPipeline(Stage(old(context.entries), AddOp, entity), old(context.effects), isCommit, amb, r)
    {
      StagePreservesValid(context.entries, AddOp, entity);
      context.entries := Stage(context.entries, AddOp, entity);
      var saved := context.SaveChanges(isCommit, amb);
      r := OutcomeOf(saved);
    }

    /** `AddRangeAsync`: stage every entity as Added, then run the pipeline once. */
    method AddRange(entities: seq<Entity>, amb: Ambient, isCommit: bool := true) returns (r: Outcome<SaveError>)
      requires context.Valid()
      modifies context
      ensures context.Valid()
      ensures RanPipeline(StageRange(old(context.entries), AddOp, entities), old(context.effects), isCommit, amb, r)
    {
      StageRangePreservesValid(context.entries, AddOp, entities);
      context.entries := StageRange(context.entries, AddOp, entities);
      var saved := context.SaveChanges(isCommit, amb);
      r := OutcomeOf(saved);
    }

    /** `Attach`: stage only; the pipeline does not run and nothing is published or committed. */
    method Attach(entity: Entity)
      requires context.Valid()
      modifies context
      ensures context.Valid()
      ensures context.entries == Stage(old(context.entries), AttachOp, entity)
      ensures context.effects == old(context.effects)
    {
      StagePreservesValid(context.entries, AttachOp, entity);
      context.entries := Stage(context.entries, AttachOp, entity);
    }

    /** `AttachRange`: stage every entity; the pipeline does not run. */
    method AttachRange(entities: seq<Entity>)
      requires context.Valid()
      modifies context
      ensures context.Valid()
      ensures context.entries == StageRange(old(context.entries), AttachOp, entities)
      ensures context.effects == old(context.effects)
    {
      StageRangePreservesValid(context.entries, AttachOp, entities);
      context.entries := StageRange(context.entries, AttachOp, entities);
    }

    /** `DeleteAsync` (both overloads): stage for removal, then run the pipeline. */
    method Delete(entity: Entity, amb: Ambient, isCommit: bool := true) returns (r: Outcome<SaveError>)
      requires context.Valid()
      modifies context
      ensures context.Valid()
      ensures RanPipeline(Stage(old(context.entries), RemoveOp, entity), old(context.effects), isCommit, amb, r)
    {
      StagePreservesValid(context.entries, RemoveOp, entity);
      context.entries := Stage(context.entries, RemoveOp, entity);
      var saved := context.SaveChanges(isCommit, amb);
      r := OutcomeOf(saved);
    }

    /** `DeleteRangeAsync`: stage every entity for removal, then run the pipeline once. */
    method DeleteRange(entities: seq<Entity>, amb: Ambient, isCommit: bool := true) returns (r: Outcome<SaveError>)
      requires context.Valid()
      modifies context
      ensures context.Valid()
      ensures RanPipeline(StageRange(old(context.entries), RemoveOp, entities), old(context.effects), isCommit, amb, r)
    {
      StageRangePreservesValid(context.entries, RemoveOp, entities);
      context.entries := StageRange(context.entries, RemoveOp, entities);
      var saved := context.SaveChanges(isCommit, amb);
      r := OutcomeOf(saved);
    }

    /** `UpdateAsync`: stage for update, then run the pipeline. */
    method Update(entity: Entity, amb: Ambient, isCommit: bool := true) returns (r: Outcome<SaveError>)
      requires context.Valid()
      modifies context
      ensures context.Valid()
      ensures RanPipeline(Stage(old(context.entries), UpdateOp, entity), old(context.effects), isCommit, amb, r)
    {
      StagePreservesValid(context.entries, UpdateOp, entity);
      context.entries := Stage(context.entries, UpdateOp, entity);
      var saved := context.SaveChanges(isCommit, amb);
      r := OutcomeOf(saved);
    }

    /** `SaveChangesAsync`: exactly what the context's pipeline returns, so 0 whenever `isCommit` is false. */
    method SaveChanges(amb: Ambient, isCommit: bool := true) returns (r: Result<int, SaveError>)
      requires context.Valid()
      modifies context
      ensures context.Valid()
      ensures var s := Save(old(context.entries), context.authenticationEnabled, context.hasMediator, isCommit, amb);
              context.entries == s.entries && context.effects == old(context.effects) + s.effects && r == s.result
      ensures !isCommit ==> r == Ok(0)
    {
      r := context.SaveChanges(isCommit, amb);
    }

    /**
     * `UpdateSpecialPropertiesAsync`: the entry is set Unchanged, then each
     * named property is flagged modified; then the pipeline runs. A name that
     * is not a mapped non-key property (the key included) throws, leaving the
     * flags set so far.
     */
    method UpdateSpecialProperties(entity: Entity, properties: seq<PropertyName>, amb: Ambient, isCommit: bool := true)
      returns (r: Outcome<SaveError>)
      requires context.Valid()
      modifies context
      ensures context.Valid()
      ensures RanSparseUpdate(Entry(entity, Unchanged, {}), properties, true,
                              old(context.entries), old(context.effects), isCommit, amb, r)
    {
      r := SetFlagsThenSave(Entry(entity, Unchanged, {}), properties, true, amb, isCommit);
    }

    /**
     * `UpdateExceptedPropertiesAsync` (which, unlike the other mutators, does
     * not commit unless asked): the entry is set Modified with every mapped
     * non-key property flagged, then each named property is unflagged (the
     * key may be named; an unmapped name throws); then the pipeline runs.
     */
    method UpdateExceptedProperties(entity: Entity, properties: seq<PropertyName>, amb: Ambient, isCommit: bool := false)
      returns (r: Outcome<SaveError>)
      requires context.Valid()
      modifies context
      ensures context.Valid()
      ensures RanSparseUpdate(Entry(entity, Modified, entity.properties), properties, false,
                              old(context.entries), old(context.effects), isCommit, amb, r)
    {
      r := SetFlagsThenSave(Entry(entity, Modified, entity.properties), properties, false, amb, isCommit);
    }

    /** Sets the entry of `start.entity` to `start`, sets `IsModified = flag` for each name, then runs the pipeline. */
    method SetFlagsThenSave(start: Entry, properties: seq<PropertyName>, flag: bool, amb: Ambient, isCommit: bool)
      returns (r: Outcome<SaveError>)
      requires context.Valid() && EntryValid(start)
      modifies context
      ensures context.Valid()
      ensures RanSparseUpdate(start, properties, flag, old(context.entries), old(context.effects), isCommit, amb, r)
    {
      var ref := start.entity.ref;
      ghost var before := context.entries;
      var slot := SlotOf(context.entries, ref);
      SetEntryAgain(before, start, start);
      SetEntryPreservesValid(context.entries, start);
      context.entries := SetEntry(context.entries, start);
      for i := 0 to |properties|
        invariant context.effects == old(context.effects)
        invariant MarkProperties(start, properties[..i], flag).1 == None
        invariant context.entries == SetEntry(before, MarkProperties(start, properties[..i], flag).0)
        invariant context.Valid()
      {
        var p := properties[i];
        var current := MarkProperties(start, properties[..i], flag).0;
        MarkPropertiesValid(start, properties[..i], flag);
        SetEntryAgain(before, start, current);
        assert properties[..i + 1][..i] == properties[..i];
        if !Settable(start.entity, p, flag) {
          MarkPropertiesStopsAtError(start, properties[..i + 1], properties[i + 1..], flag);
          assert properties[..i + 1] + properties[i + 1..] == properties;
          return Fail(InvalidProperty(p));
        }
        SetPropertyModifiedValid(current, p, flag);
        SetEntryAgain(before, current, SetPropertyModified(current, p, flag));
        SetEntryPreservesValid(before, SetPropertyModified(current, p, flag));
        context.entries := context.entries[slot := SetPropertyModified(context.entries[slot], p, flag)];
      }
      assert properties[..|properties|] == properties;
      var saved := context.SaveChanges(isCommit, amb);
      r := OutcomeOf(saved);
    }
  }

  // ===================================================== whole operations

  /**
   * Deleting a soft-delete entity with commit: whatever the mediator and the
   * store then do, the entity is still tracked, flagged deleted and not
   * stamped. The change detection sees the new flag, so an entity that was
   * not flagged before is saved as a modification: a version-tracking one
   * gets its EntityChangedEvent, and when the save fails the entry is left
   * Modified. An entity the tracker holds as Added is the exception:
   * removing it merely detaches it.
   */
  lemma DeleteSoftDeleteCommitted(es: seq<Entry>, x: Entity, auth: bool, mediator: bool, amb: Ambient)
    requires TrackerValid(es)
    requires x.caps.softDelete
    requires Lookup(es, x.ref).None? || Lookup(es, x.ref).value.state != Added
    ensures var s := Save(Stage(es, RemoveOp, x), auth, mediator, true, amb);
            var e := Lookup(s.entries, x.ref);
            var events := if x.caps.versionTracking && !x.isDeleted then Some(BufferOf(x) + [EntityChanged(x.ref, amb.utcNow)]) else x.events;
            && e.Some?
            && e.value.entity == x.(isDeleted := true, events := events)
            && e.value.state == (if s.result.Ok? || x.isDeleted then Unchanged else Modified)
            && e.value.modified == {}
  {
    var staged := Stage(es, RemoveOp, x);
    StagePreservesValid(es, RemoveOp, x);
    LookupStage(es, RemoveOp, x, x.ref);
    LookupSave(staged, auth, mediator, amb, x.ref);
    TrackEntrySoftDelete(Lookup(staged, x.ref).value, StampingUser(auth, amb.nameIdentifier), amb.now, amb.utcNow);
  }

  /** Deleting without commit leaves the entity staged as Deleted: the pipeline does not run. */
  lemma DeleteWithoutCommit(es: seq<Entry>, x: Entity, auth: bool, mediator: bool, amb: Ambient)
    requires TrackerValid(es)
    requires Lookup(es, x.ref).None? || Lookup(es, x.ref).value.state != Added
    ensures Lookup(Save(Stage(es, RemoveOp, x), auth, mediator, false, amb).entries, x.ref) == Some(Entry(x, Deleted, {}))
  {
    LookupStage(es, RemoveOp, x, x.ref);
  }

  /**
   * Adding an auditable entity with commit stamps its creation with the
   * resolved user and the clock and leaves its last-modified pair as the
   * caller set it. The entity is Unchanged afterwards when the save
   * succeeded, and still Added when it failed.
   */
  lemma AddCommittedStampsCreation(es: seq<Entry>, x: Entity, auth: bool, mediator: bool, amb: Ambient)
    requires TrackerValid(es)
    requires x.caps.auditable
    ensures var s := Save(Stage(es, AddOp, x), auth, mediator, true, amb);
            var e := Lookup(s.entries, x.ref);
            && e.Some?
            && e.value.entity.audit == x.audit.(createdBy := StampingUser(auth, amb.nameIdentifier), createdDate := amb.now)
            && e.value.state == (if s.result.Ok? then Unchanged else Added)
  {
    var staged := Stage(es, AddOp, x);
    StagePreservesValid(es, AddOp, x);
    LookupStage(es, AddOp, x, x.ref);
    LookupSave(staged, auth, mediator, amb, x.ref);
    TrackEntryAudit(Lookup(staged, x.ref).value, StampingUser(auth, amb.nameIdentifier), amb.now, amb.utcNow);
    TrackEntrySoftDelete(Lookup(staged, x.ref).value, StampingUser(auth, amb.nameIdentifier), amb.now, amb.utcNow);
  }

  /**
   * Updating an auditable entity whose key is set (and that is not pending
   * insertion) with commit stamps its modification and keeps its creation pair.
   */
  lemma UpdateCommittedStampsModification(es: seq<Entry>, x: Entity, auth: bool, mediator: bool, amb: Ambient)
    requires TrackerValid(es)
    requires x.caps.auditable && KeySet(x)
    requires Lookup(es, x.ref).None? || Lookup(es, x.ref).value.state != Added
    ensures var s := Save(Stage(es, UpdateOp, x), auth, mediator, true, amb);
            var e := Lookup(s.entries, x.ref);
            && e.Some?
            && e.value.entity.audit ==
               x.audit.(lastModifiedBy := Some(StampingUser(auth, amb.nameIdentifier)), lastModifiedDate := Some(amb.now))
  {
    var staged := Stage(es, UpdateOp, x);
    StagePreservesValid(es, UpdateOp, x);
    LookupStage(es, UpdateOp, x, x.ref);
    LookupSave(staged, auth, mediator, amb, x.ref);
    TrackEntryAudit(Lookup(staged, x.ref).value, StampingUser(auth, amb.nameIdentifier), amb.now, amb.utcNow);
    TrackEntrySoftDelete(Lookup(staged, x.ref).value, StampingUser(auth, amb.nameIdentifier), amb.now, amb.utcNow);
  }

  /**
   * A sparse update naming mapped non-key properties leaves exactly those flagged;
   * the entry is Modified when at least one was named, so with commit an
   * auditable entity gets its modification stamp.
   */
  lemma SpecialPropertiesStaged(es: seq<Entry>, x: Entity, props: seq<PropertyName>, auth: bool, mediator: bool, amb: Ambient)
    requires TrackerValid(es)
    requires props != [] && forall p :: p in props ==> Settable(x, p, true)
    requires x.caps.auditable
    ensures var marked := MarkProperties(Entry(x, Unchanged, {}), props, true);
            var staged := SetEntry(es, marked.0);
            && marked.1 == None
            && Lookup(staged, x.ref) == Some(Entry(x, Modified, (set p | p in props)))
            && var e := Lookup(Save(staged, auth, mediator, true, amb).entries, x.ref);
               e.Some? && e.value.entity.audit ==
                 x.audit.(lastModifiedBy := Some(StampingUser(auth, amb.nameIdentifier)), lastModifiedDate := Some(amb.now))
  {
    MarkSpecialProperties(x, props);
    var e := Entry(x, Modified, (set p | p in props));
    var staged := SetEntry(es, e);
    LookupSetEntry(es, e, x.ref);
    SetEntryPreservesValid(es, e);
    LookupSave(staged, auth, mediator, amb, x.ref);
    TrackEntryAudit(Lookup(staged, x.ref).value, StampingUser(auth, amb.nameIdentifier), amb.now, amb.utcNow);
    TrackEntrySoftDelete(Lookup(staged, x.ref).value, StampingUser(auth, amb.nameIdentifier), amb.now, amb.utcNow);
  }

  /**
   * An update-except naming mapped properties or the key leaves every other
   * mapped property flagged; by default it does not commit, so the entry stays so staged.
   */
  lemma ExceptedPropertiesStaged(es: seq<Entry>, x: Entity, props: seq<PropertyName>, auth: bool, mediator: bool, amb: Ambient)
    requires forall p :: p in props ==> Settable(x, p, false)
    ensures var marked := MarkProperties(Entry(x, Modified, x.properties), props, false);
            var staged := SetEntry(es, marked.0);
            var e := Lookup(Save(staged, auth, mediator, false, amb).entries, x.ref);
            && marked.1 == None
            && e.Some? && e.value.entity == x
            && e.value.modified == x.properties - (set p | p in props)
  {
    MarkExceptedProperties(x, props);
    LookupSetEntry(es, MarkProperties(Entry(x, Modified, x.properties), props, false).0, x.ref);
  }

  /**
   * A soft-deleted entity stays in the store but no longer passes the
   * default query filter of its type, when that type is a root dictionary
   * entity type. This is the filter the context's model building means to
   * install; as written it installs none (see OnModelCreatingAsWritten).
   */
  lemma SoftDeletedHiddenFromQueries(es: seq<Entry>, x: Entity, t: EntityType, auth: bool, mediator: bool, amb: Ambient)
    requires TrackerValid(es)
    requires t.caps == x.caps && !t.hasBaseType && x.caps.dictionary && x.caps.softDelete
    requires Lookup(es, x.ref).None? || Lookup(es, x.ref).value.state != Added
    ensures var e := Lookup(Save(Stage(es, RemoveOp, x), auth, mediator, true, amb).entries, x.ref);
            e.Some? && !PassesFilter(ConfigureGlobalFilters(t), e.value.entity)
  {
    DeleteSoftDeleteCommitted(es, x, auth, mediator, amb);
  }

  /**
   * Event buffers are read, never cleared: after a successful save, the next
   * save publishes the very same events again, up to the handler that throws
   * if one does (here for a tracker with no hard delete pending, so that no
   * event owner is dropped by the commit).
   */
  lemma EventsRepublishedOnNextSave(es: seq<Entry>, auth: bool, amb1: Ambient, amb2: Ambient)
    requires TrackerValid(es)
    requires forall i :: 0 <= i < |es| && es[i].state == Deleted ==> es[i].entity.caps.softDelete
    requires Save(es, auth, true, true, amb1).result.Ok?
    ensures var s1 := Save(es, auth, true, true, amb1);
            var s2 := Save(s1.entries, auth, true, true, amb2);
            && |s1.effects| > 0
            && var published := s1.effects[..|s1.effects| - 1];
               if amb2.publishFailsAt.Some? && amb2.publishFailsAt.value < |published| then
                 s2.effects == published[..amb2.publishFailsAt.value] && s2.result == Err(PublishFailed)
               else
                 |s2.effects| == |s1.effects| && s2.effects[..|s2.effects| - 1] == published
  {
    var user := StampingUser(auth, amb1.nameIdentifier);
    var tracked := TrackChanges(es, user, amb1.now, amb1.utcNow);
    forall i | 0 <= i < |tracked| ensures tracked[i].state != Deleted {
      TrackEntrySoftDelete(es[i], user, amb1.now, amb1.utcNow);
    }
    var accepted := AcceptAllChanges(tracked);
    HarvestAcceptAllChanges(tracked);
    SaveSucceeded(es, auth, true, amb1);
    var s1 := Save(es, auth, true, true, amb1);
    assert s1.effects[..|s1.effects| - 1] == Publications(Harvest(tracked).value);
    assert forall i :: 0 <= i < |accepted| ==> accepted[i] in accepted;
    SaveClean(accepted, auth, amb2);
  }
}
