/**
 * The application's database context: the change tracker it owns, the log of
 * what its mediator and store observe, and the save pipeline run as the
 * source runs it, loop by loop. Each method is proved to do what the
 * functions of module SavePipeline say.
 */
module DbContext {
  import opened Wrappers
  import opened EntityModel
  import opened ChangeTracker
  import opened SavePipeline

  class ApplicationDbContext {
    /** Whether audit stamps use the request's user id (otherwise user 1). */
    const authenticationEnabled: bool
    /** Whether a mediator is configured to publish events. */
    const hasMediator: bool

    /** The change tracker's entries, in tracker order. */
    var entries: seq<Entry>
    /** Everything the mediator and the store have observed, in order. */
    var effects: seq<Effect>

    ghost predicate Valid()
      reads this
    {
      TrackerValid(entries)
    }

    /**
     * The constructor taking only a mediator. The mediator must not be null
     * (the constructor throws otherwise), and authentication stays disabled.
     */
    constructor WithMediator()
      ensures Valid() && hasMediator && !authenticationEnabled
      ensures entries == [] && effects == []
    {
      authenticationEnabled := false;
      hasMediator := true;
      entries := [];
      effects := [];
    }

    /**
     * The constructor taking an HTTP context accessor, a mediator and the
     * authentication switch (on unless the caller turns it off). Neither
     * collaborator may be null.
     */
    constructor WithHttpContext(authenticationEnabled: bool := true)
      ensures Valid() && hasMediator && this.authenticationEnabled == authenticationEnabled
      ensures entries == [] && effects == []
    {
      this.authenticationEnabled := authenticationEnabled;
      hasMediator := true;
      entries := [];
      effects := [];
    }

    /**
     * `OnModelCreating`: decides for each entity type of the model whether
     * it gets the "not deleted" query filter.
     */
    method OnModelCreating(types: seq<EntityType>) returns (filters: seq<Option<QueryFilter>>)
      ensures |filters| == |types|
      ensures forall i :: 0 <= i < |types| ==>
                (filters[i].Some? <==> !types[i].hasBaseType && types[i].caps.dictionary && types[i].caps.softDelete)
      ensures forall i :: 0 <= i < |types| ==> filters[i] == ConfigureGlobalFilters(types[i])
    {
      filters := [];
      for i := 0 to |types|
        invariant |filters| == i
        invariant forall j :: 0 <= j < i ==> filters[j] == ConfigureGlobalFilters(types[j])
      {
        var t := types[i];
        var f: Option<QueryFilter> := None;
        if !t.hasBaseType && ShouldFilterEntity(t) {
          f := CreateFilterExpression(t);
        }
        filters := filters + [f];
      }
    }

    /**
     * `SaveChangesAsync(isCommit)`. Without `isCommit` it returns 0 and
     * touches nothing. Otherwise it stamps, rewrites soft deletes and raises
     * version events, publishes every buffered event (when there is a
     * mediator), and only then commits.
     */
    method SaveChanges(isCommit: bool, amb: Ambient) returns (r: Result<int, SaveError>)
      requires Valid()
      modifies this
      ensures Valid()
      ensures var s := Save(old(entries), authenticationEnabled, hasMediator, isCommit, amb);
              entries == s.entries && effects == old(effects) + s.effects && r == s.result
      ensures !isCommit ==> r == Ok(0) && entries == old(entries) && effects == old(effects)
    {
      if !isCommit {
        return Ok(0);
      }
      // The explicit change detection finds nothing: the entries already hold the entities' current values.
      var user := if authenticationEnabled then UserId(amb.nameIdentifier) else 1;
      TrackChanges(user, amb.now, amb.utcNow);
      if hasMediator {
        var failure := DispatchEvents(amb.publishFailsAt);
        if failure.Some? {
          return Err(failure.value);
        }
      }
      r := CommitToStore(amb.store);
    }

    /**
     * `TrackChanges()`: the audit pass, the soft-delete pass and the version
     * pass, each a loop over the tracker, with the framework's change
     * detection run when the version pass asks for the tracker's entries.
     */
    method TrackChanges(user: int, now: Instant, utcNow: Instant)
      requires Valid()
      modifies this
      ensures Valid()
      ensures entries == SavePipeline.TrackChanges(old(entries), user, now, utcNow)
      ensures effects == old(effects)
    {
      ghost var before := entries;
      SetAuditProperties(user, now);
      // the values the framework's change detection compares against
      var snapshot := entries;
      SetSoftDeleteProperties();
      DetectSoftDeleteChanges(snapshot);
      RaiseEntityChangedEvents(utcNow);
      TrackChangesValid(before, user, now, utcNow);
    }

    /** The audit pass: stamps the creation of Added and the modification of Modified auditable entities. */
    method SetAuditProperties(user: int, now: Instant)
      modifies this`entries
      ensures entries == StampAudit(old(entries), user, now)
    {
      ghost var before := entries;
      var i := 0;
      while i < |entries|
        invariant 0 <= i <= |entries| == |before|
        invariant forall j :: 0 <= j < i ==> entries[j] == StampEntry(before[j], user, now)
        invariant forall j :: i <= j < |entries| ==> entries[j] == before[j]
      {
        var entry := entries[i];
        if entry.entity.caps.auditable {
          var audit := entry.entity.audit;
          match entry.state {
            case Added =>
              audit := audit.(createdBy := user, createdDate := now);
              entries := entries[i := entry.(entity := entry.entity.(audit := audit))];
            case Modified =>
              audit := audit.(lastModifiedBy := Some(user), lastModifiedDate := Some(now));
              entries := entries[i := entry.(entity := entry.entity.(audit := audit))];
            case _ =>
          }
        }
        i := i + 1;
      }
    }

    /** The soft-delete pass: a Deleted soft-delete entry is set Unchanged and its entity flagged. */
    method SetSoftDeleteProperties()
      modifies this`entries
      ensures entries == ApplySoftDelete(old(entries))
    {
      ghost var before := entries;
      var i := 0;
      while i < |entries|
        invariant 0 <= i <= |entries| == |before|
        invariant forall j :: 0 <= j < i ==> entries[j] == SoftDeleteEntry(before[j])
        invariant forall j :: i <= j < |entries| ==> entries[j] == before[j]
      {
        var entry := entries[i];
        if entry.entity.caps.softDelete && entry.state == Deleted {
          entries := entries[i := entry.(state := Unchanged, modified := {}, entity := entry.entity.(isDeleted := true))];
        }
        i := i + 1;
      }
    }

    /** The framework's change detection: an Unchanged entry whose flag no longer matches the snapshot is Modified. */
    method DetectSoftDeleteChanges(snapshot: seq<Entry>)
      requires |snapshot| == |entries|
      modifies this`entries
      ensures entries == DetectChanges(snapshot, old(entries))
    {
      ghost var before := entries;
      var i := 0;
      while i < |entries|
        invariant 0 <= i <= |entries| == |before| == |snapshot|
        invariant forall j :: 0 <= j < i ==> entries[j] == DetectEntry(snapshot[j], before[j])
        invariant forall j :: i <= j < |entries| ==> entries[j] == before[j]
      {
        var entry := entries[i];
        if entry.state == Unchanged && entry.entity.isDeleted != snapshot[i].entity.isDeleted {
          entries := entries[i := entry.(state := Modified)];
        }
        i := i + 1;
      }
    }

    /** The version pass: a version-tracking entity above Unchanged gets an EntityChangedEvent in its buffer. */
    method RaiseEntityChangedEvents(utcNow: Instant)
      modifies this`entries
      ensures entries == RaiseVersionEvents(old(entries), utcNow)
    {
      ghost var before := entries;
      var i := 0;
      while i < |entries|
        invariant 0 <= i <= |entries| == |before|
        invariant forall j :: 0 <= j < i ==> entries[j] == VersionEntry(before[j], utcNow)
        invariant forall j :: i <= j < |entries| ==> entries[j] == before[j]
      {
        var entry := entries[i];
        if entry.entity.caps.versionTracking && entry.state.Ordinal() > Unchanged.Ordinal() {
          var domainEvent := EntityChanged(entry.entity.ref, utcNow);
          var buffer := if entry.entity.events.Some? then entry.entity.events.value else [];
          buffer := buffer + [domainEvent];
          entries := entries[i := entry.(entity := entry.entity.(events := Some(buffer)))];
        }
        i := i + 1;
      }
    }

    /**
     * `DispathEventsAsync()`: collects the event-owning entities with a
     * non-empty buffer (failing on a null buffer before publishing anything),
     * then publishes their events one by one; the handler of publish number
     * `failsAt` (counting from 0), if any, throws and ends the dispatch. The
     * buffers are left as they are.
     */
    method DispatchEvents(failsAt: Option<nat>) returns (failure: Option<SaveError>)
      modifies this
      ensures entries == old(entries)
      ensures match Harvest(entries)
              case Ok(evs) =>
                if failsAt.Some? && failsAt.value < |evs| then
                  failure == Some(PublishFailed) && effects == old(effects) + Publications(evs[..failsAt.value])
                else
                  failure == None && effects == old(effects) + Publications(evs)
              case Err(e) => failure == Some(e) && effects == old(effects)
    {
      var owners := CollectEventOwners();
      if owners.Err? {
        return Some(owners.error);
      }
      failure := PublishEvents(owners.value, failsAt);
    }

    /** The first half of the dispatch: the entities whose events are published, in tracker order. */
    method CollectEventOwners() returns (r: Result<seq<Entity>, SaveError>)
      ensures r == EntitiesWithEvents(entries)
    {
      var withEvents: seq<Entity> := [];
      var i := 0;
      assert entries[0..] == entries;
      AppendEmptyPrefix(EntitiesWithEvents(entries));
      while i < |entries|
        invariant 0 <= i <= |entries|
        invariant EntitiesWithEvents(entries) == PrependEntities(withEvents, EntitiesWithEvents(entries[i..]))
      {
        assert entries[i..][0] == entries[i] && entries[i..][1..] == entries[i + 1..];
        var entity := entries[i].entity;
        if entity.caps.ownsEvents {
          if entity.events.None? {
            return Err(NullEventBuffer);
          }
          if entity.events.value != [] {
            PrependTwice(withEvents, [entity], EntitiesWithEvents(entries[i + 1..]));
            withEvents := withEvents + [entity];
          } else {
            AppendEmptyPrefix(EntitiesWithEvents(entries[i + 1..]));
          }
        }
        i := i + 1;
      }
      assert entries[i..] == [];
      assert withEvents + [] == withEvents;
      r := Ok(withEvents);
    }

    /** The second half of the dispatch: one publish per buffered event, entity by entity, until a handler throws. */
    method PublishEvents(withEvents: seq<Entity>, failsAt: Option<nat>) returns (failure: Option<SaveError>)
      requires forall x :: x in withEvents ==> x.events.Some?
      modifies this`effects
      ensures var evs := EventsOf(withEvents);
              if failsAt.Some? && failsAt.value < |evs| then
                failure == Some(PublishFailed) && effects == old(effects) + Publications(evs[..failsAt.value])
              else
                failure == None && effects == old(effects) + Publications(evs)
    {
      ghost var evs := EventsOf(withEvents);
      ghost var published: seq<DomainEvent> := [];
      var count := 0;
      assert withEvents[0..] == withEvents;
      for k := 0 to |withEvents|
        invariant count == |published|
        invariant failsAt.None? || failsAt.value >= count
        invariant evs == published + EventsOf(withEvents[k..])
        invariant effects == old(effects) + Publications(published)
      {
        var events := withEvents[k].events.value;
        EventsOfFrom(withEvents, k);
        failure := PublishBuffer(events, failsAt, count);
        PublishedThrough(evs, published, events, EventsOf(withEvents[k + 1..]), failsAt, count);
        if failure.Some? {
          return;
        }
        published := published + events;
        count := count + |events|;
      }
      assert withEvents[|withEvents|..] == [];
      assert evs == published;
      failure := None;
    }

    /**
     * Publishes one entity's buffer, event by event; `count` events were
     * published before it, so the handler of publish number `failsAt` throws
     * if it falls within this buffer.
     */
    method PublishBuffer(events: seq<DomainEvent>, failsAt: Option<nat>, count: nat) returns (failure: Option<SaveError>)
      requires failsAt.None? || failsAt.value >= count
      modifies this`effects
      ensures if failsAt.Some? && failsAt.value < count + |events| then
                failure == Some(PublishFailed) && effects == old(effects) + Publications(events[..failsAt.value - count])
              else
                failure == None && effects == old(effects) + Publications(events)
    {
      for j := 0 to |events|
        invariant failsAt.None? || failsAt.value >= count + j
        invariant effects == old(effects) + Publications(events[..j])
      {
        if failsAt == Some(count + j) {
          return Some(PublishFailed);
        }
        PublicationsAppend(events[..j], [events[j]]);
        assert events[..j + 1] == events[..j] + [events[j]];
        effects := effects + [Published(events[j])];
      }
      assert events[..|events|] == events;
      failure := None;
    }

    /**
     * The store commit (`base.SaveChangesAsync`): on success every change is
     * accepted and the row count returned; on rejection the tracker is left
     * as it is and the failure surfaces.
     */
    method CommitToStore(reply: StoreReply) returns (r: Result<int, SaveError>)
      requires Valid()
      modifies this
      ensures Valid()
      ensures match reply
              case Accepts(rows) =>
                entries == AcceptAllChanges(old(entries)) && effects == old(effects) + [Committed(rows)] && r == Ok(rows)
              case Rejects =>
                entries == old(entries) && effects == old(effects) + [CommitRejected] && r == Err(StoreRejected)
    {
      match reply {
        case Accepts(rows) =>
          AcceptAllChangesValid(entries);
          entries := AcceptAllChanges(entries);
          effects := effects + [Committed(rows)];
          r := Ok(rows);
        case Rejects =>
          effects := effects + [CommitRejected];
          r := Err(StoreRejected);
      }
    }
  }

  /** `xs` put in front of the entities a harvest found, if it found them. */
  function PrependEntities(xs: seq<Entity>, r: Result<seq<Entity>, SaveError>): Result<seq<Entity>, SaveError>
  {
    match r
    case Ok(ys) => Ok(xs + ys)
    case Err(e) => Err(e)
  }

  lemma AppendEmptyPrefix(r: Result<seq<Entity>, SaveError>)
    ensures PrependEntities([], r) == r
  {
    if r.Ok? { assert [] + r.value == r.value; }
  }

  lemma PrependTwice(xs: seq<Entity>, ys: seq<Entity>, r: Result<seq<Entity>, SaveError>)
    ensures PrependEntities(xs, PrependEntities(ys, r)) == PrependEntities(xs + ys, r)
  {
    if r.Ok? { assert xs + (ys + r.value) == xs + ys + r.value; }
  }

  /** How one buffer's outcome extends the publishes made before it. */
  lemma PublishedThrough(evs: seq<DomainEvent>, published: seq<DomainEvent>, events: seq<DomainEvent>, rest: seq<DomainEvent>,
                         failsAt: Option<nat>, count: nat)
    requires count == |published| && evs == published + (events + rest)
    requires failsAt.None? || failsAt.value >= count
    ensures evs == (published + events) + rest
    ensures failsAt.Some? && failsAt.value < count + |events| ==>
              && failsAt.value < |evs|
              && evs[..failsAt.value] == published + events[..failsAt.value - count]
              && Publications(evs[..failsAt.value]) == Publications(published) + Publications(events[..failsAt.value - count])
    ensures Publications(published + events) == Publications(published) + Publications(events)
  {
    if failsAt.Some? && failsAt.value < count + |events| {
      var m := failsAt.value - count;
      assert evs[..failsAt.value] == published + events[..m];
      PublicationsAppend(published, events[..m]);
    }
    PublicationsAppend(published, events);
  }

  /** The events from the `k`th collected entity on: its own buffer, then those of the entities after it. */
  lemma EventsOfFrom(xs: seq<Entity>, k: nat)
    requires k < |xs| && xs[k].events.Some?
    ensures EventsOf(xs[k..]) == xs[k].events.value + EventsOf(xs[k + 1..])
  {
    assert xs[k..][0] == xs[k] && xs[k..][1..] == xs[k + 1..];
  }
}
