/**
 * The save pipeline of the application's database context, stated as pure
 * functions over the change tracker: resolving the current user, the three
 * passes of TrackChanges (audit stamping, soft-delete rewriting, version
 * events) with the change detection the framework runs between them, harvesting buffered events for dispatch, the store commit, and
 * the model-building decision of which entity types get the "not deleted"
 * query filter. The class in module DbContext runs these steps imperatively
 * and is proved against the functions here.
 */
module SavePipeline {
  import opened Wrappers
  import opened EntityModel
  import opened ChangeTracker
  import opened Int32Parsing

  /** What the store answers to a commit: the number of rows it wrote, or a rejection. */
  datatype StoreReply = Accepts(rows: nat) | Rejects

  /**
   * The ambient inputs of one save: the request's NameIdentifier claim value
   * (None when there is no identity or no such claim), `DateTime.Now`,
   * `DateTime.UtcNow`, the position of the first publish whose handler
   * throws (None: every handler completes), and the store's reply to the
   * commit.
   */
  datatype Ambient = Ambient(nameIdentifier: Option<string>, now: Instant, utcNow: Instant,
                             publishFailsAt: Option<nat>, store: StoreReply)

  /**
   * Failures a save or a repository call surfaces: a null event buffer on an
   * event-owning entity (the dispatch's `Any()` throws), a handler throwing
   * from `Publish`, the store rejecting the commit, and a property expression
   * the framework refuses.
   */
  datatype SaveError = NullEventBuffer | PublishFailed | StoreRejected | InvalidProperty(name: PropertyName)

  /** What the outside world observes, in order: the mediator's publishes and the store's commit. */
  datatype Effect = Published(event: DomainEvent) | Committed(rows: nat) | CommitRejected

  /** The result of one pipeline run: the tracker afterwards, the effects it caused, and what it returns. */
  datatype Saved = Saved(entries: seq<Entry>, effects: seq<Effect>, result: Result<int, SaveError>)

  // ------------------------------------------------------------ current user

  /** `UserId()`: the NameIdentifier claim parsed as an `int`, 0 when absent or not a number. */
  function UserId(nameIdentifier: Option<string>): (r: int)
    ensures InInt32(r)
    ensures nameIdentifier.None? ==> r == 0
  {
    match nameIdentifier
    case None => 0
    case Some(s) => match TryParseInt32(s) case Some(v) => v case None => 0
  }

  /** The id written into the audit fields: the claim's user id, or 1 when authentication is disabled. */
  function StampingUser(authenticationEnabled: bool, nameIdentifier: Option<string>): int
  {
    if authenticationEnabled then UserId(nameIdentifier) else 1
  }

  // ---------------------------------------------------------- TrackChanges

  /** Audit pass on one entry: an Added auditable entity gets its creation stamp, a Modified one its modification stamp. */
  function StampEntry(e: Entry, user: int, now: Instant): Entry
  {
    var a := e.entity.audit;
    if !e.entity.caps.auditable then e
    else match e.state
      case Added => e.(entity := e.entity.(audit := a.(createdBy := user, createdDate := now)))
      case Modified => e.(entity := e.entity.(audit := a.(lastModifiedBy := Some(user), lastModifiedDate := Some(now))))
      case _ => e
  }

  /** Soft-delete pass on one entry: a Deleted soft-delete entity becomes Unchanged and flagged. */
  function SoftDeleteEntry(e: Entry): Entry
  {
    if e.entity.caps.softDelete && e.state == Deleted then
      e.(state := Unchanged, modified := {}, entity := e.entity.(isDeleted := true))
    else e
  }

  /** The entity's event buffer, a null buffer read as empty. */
  function BufferOf(x: Entity): seq<DomainEvent>
  {
    match x.events case Some(b) => b case None => []
  }

  /**
   * The change detection `ChangeTracker.Entries<T>()` runs before the version
   * pass, for one entry: the framework compares the entity with its snapshot
   * (`original`, the entry before the soft-delete pass), and an Unchanged
   * entry whose soft-delete flag now differs becomes Modified. The
   * pipeline's other writes (the audit stamps, on Added or Modified entries)
   * cannot change a state.
   */
  function DetectEntry(original: Entry, current: Entry): Entry
  {
    if current.state == Unchanged && current.entity.isDeleted != original.entity.isDeleted then
      current.(state := Modified)
    else current
  }

  /** Version pass on one entry: a version-tracking entity in a state above Unchanged gets an EntityChangedEvent appended. */
  function VersionEntry(e: Entry, utcNow: Instant): Entry
  {
    if e.entity.caps.versionTracking && e.state.Ordinal() > Unchanged.Ordinal() then
      e.(entity := e.entity.(events := Some(BufferOf(e.entity) + [EntityChanged(e.entity.ref, utcNow)])))
    else e
  }

  function StampAudit(es: seq<Entry>, user: int, now: Instant): seq<Entry>
  {
    seq(|es|, i requires 0 <= i < |es| => StampEntry(es[i], user, now))
  }

  function ApplySoftDelete(es: seq<Entry>): seq<Entry>
  {
    seq(|es|, i requires 0 <= i < |es| => SoftDeleteEntry(es[i]))
  }

  function DetectChanges(originals: seq<Entry>, es: seq<Entry>): seq<Entry>
    requires |originals| == |es|
  {
    seq(|es|, i requires 0 <= i < |es| => DetectEntry(originals[i], es[i]))
  }

  function RaiseVersionEvents(es: seq<Entry>, utcNow: Instant): seq<Entry>
  {
    seq(|es|, i requires 0 <= i < |es| => VersionEntry(es[i], utcNow))
  }

  /**
   * `TrackChanges()`: the three passes, each over the whole tracker, in this
   * order, with the change detection that the version pass's
   * `Entries<IDataVersionTracking>()` runs first.
   */
  function TrackChanges(es: seq<Entry>, user: int, now: Instant, utcNow: Instant): seq<Entry>
  {
    var stamped := StampAudit(es, user, now);
    RaiseVersionEvents(DetectChanges(stamped, ApplySoftDelete(stamped)), utcNow)
  }

  /** What the three passes and the detection together do to one entry. */
  function TrackEntry(e: Entry, user: int, now: Instant, utcNow: Instant): Entry
  {
    var stamped := StampEntry(e, user, now);
    VersionEntry(DetectEntry(stamped, SoftDeleteEntry(stamped)), utcNow)
  }

  // ------------------------------------------------------------- dispatch

  /**
   * The `entitiesWithEvents` list: event-owning entities whose buffer is not
   * empty, in tracker order. The whole list is built before anything is
   * published, so a null buffer anywhere fails the dispatch before its first
   * publish.
   */
  function EntitiesWithEvents(es: seq<Entry>): (r: Result<seq<Entity>, SaveError>)
    ensures r.Ok? ==> forall x :: x in r.value ==> x.caps.ownsEvents && x.events.Some? && x.events.value != []
    ensures r.Err? ==> r.error == NullEventBuffer
    ensures r.Err? <==> exists i :: 0 <= i < |es| && es[i].entity.caps.ownsEvents && es[i].entity.events.None?
    decreases |es|
  {
    if es == [] then Ok([])
    else
      var x := es[0].entity;
      var rest := EntitiesWithEvents(es[1..]);
      assert forall i :: 1 <= i < |es| ==> es[i] == es[1..][i - 1];
      if !x.caps.ownsEvents then rest
      else if x.events.None? then Err(NullEventBuffer)
      else if rest.Err? then rest
      else Ok((if x.events.value != [] then [x] else []) + rest.value)
  }

  /** The events of a list of entities, entity after entity, each buffer in its own order. */
  function EventsOf(xs: seq<Entity>): seq<DomainEvent>
    decreases |xs|
  {
    if xs == [] then [] else BufferOf(xs[0]) + EventsOf(xs[1..])
  }

  /** Whether the dispatch collects this entry's entity: it owns events and its buffer is neither null nor empty. */
  predicate Collected(e: Entry)
  {
    e.entity.caps.ownsEvents && e.entity.events.Some? && e.entity.events.value != []
  }

  /** Everything the dispatch publishes, or why it throws. */
  function Harvest(es: seq<Entry>): Result<seq<DomainEvent>, SaveError>
  {
    match EntitiesWithEvents(es)
    case Ok(xs) => Ok(EventsOf(xs))
    case Err(e) => Err(e)
  }

  /** One publish per event, in order. */
  function Publications(evs: seq<DomainEvent>): seq<Effect>
  {
    seq(|evs|, i requires 0 <= i < |evs| => Published(evs[i]))
  }

  // --------------------------------------------------------- SaveChanges

  /**
   * `SaveChangesAsync(isCommit)`: nothing unless `isCommit`; otherwise track
   * changes, publish every harvested event if there is a mediator, and only
   * then ask the store to commit. A null buffer stops the save before any
   * publish; a throwing handler stops it after the publishes before it; in
   * both cases, and when the store rejects the commit, the tracker stays as
   * TrackChanges left it.
   */
  function Save(es: seq<Entry>, authenticationEnabled: bool, hasMediator: bool, isCommit: bool, amb: Ambient): Saved
  {
    if !isCommit then Saved(es, [], Ok(0))
    else
      var tracked := TrackChanges(es, StampingUser(authenticationEnabled, amb.nameIdentifier), amb.now, amb.utcNow);
      var harvest := if hasMediator then Harvest(tracked) else Ok([]);
      match harvest
      case Err(e) => Saved(tracked, [], Err(e))
      case Ok(evs) =>
        if amb.publishFailsAt.Some? && amb.publishFailsAt.value < |evs| then
          Saved(tracked, Publications(evs[..amb.publishFailsAt.value]), Err(PublishFailed))
        else match amb.store
        case Accepts(rows) => Saved(AcceptAllChanges(tracked), Publications(evs) + [Committed(rows)], Ok(rows))
        case Rejects => Saved(tracked, Publications(evs) + [CommitRejected], Err(StoreRejected))
  }

  // ------------------------------------------------------- query filters

  /** An entity type of the model: whether it derives from another mapped type, and its capabilities. */
  datatype EntityType = EntityType(hasBaseType: bool, caps: Capabilities)

  /** The one filter the model can install: hide rows whose IsDeleted flag is set. */
  datatype QueryFilter = NotDeleted

  /** `ShouldFilterEntity<T>()` as the context declares it: dictionary entities are filtered. */
  predicate ShouldFilterEntity(t: EntityType)
  {
    t.caps.dictionary
  }

  /** `CreateFilterExpression<T>()`: the "not deleted" filter for soft-delete types, none otherwise. */
  function CreateFilterExpression(t: EntityType): Option<QueryFilter>
  {
    if t.caps.softDelete then Some(NotDeleted) else None
  }

  /** `ConfigureGlobalFilters<T>()`: the filter installed on the type, if any. */
  function ConfigureGlobalFilters(t: EntityType): (r: Option<QueryFilter>)
    ensures r.Some? <==> !t.hasBaseType && t.caps.dictionary && t.caps.softDelete
  {
    if t.hasBaseType || !ShouldFilterEntity(t) then None
    else CreateFilterExpression(t)
  }

  /** Why building the model fails. */
  datatype ModelError = NullMethodInfo

  /**
   * Model building as the context is written. The `MethodInfo` for
   * `ConfigureGlobalFilters` is looked up on the framework's base `DbContext`
   * type, which does not declare it, and a lookup on a type does not see
   * members its subclasses declare: the field is null, and the first entity
   * type's `MakeGenericMethod` call on it throws.
   */
  function OnModelCreatingAsWritten(types: seq<EntityType>): Result<seq<Option<QueryFilter>>, ModelError>
  {
    if types == [] then Ok([]) else Err(NullMethodInfo)
  }

  /** Whether a default query over a type with filter `f` returns the entity. */
  predicate PassesFilter(f: Option<QueryFilter>, x: Entity)
  {
    match f
    case None => true
    case Some(NotDeleted) => !x.isDeleted
  }

  // ================================================================ lemmas

  /** The user id read back from a rendered 32-bit number is that number. */
  lemma UserIdRoundTrip(n: int)
    requires InInt32(n)
    ensures UserId(Some(Int32ToString(n))) == n
  {
    ParseFormatRoundTrip(n);
  }

  /** A claim value that is not a number gives user id 0. */
  lemma UserIdUnparsable(s: string)
    requires TryParseInt32(s).None?
    ensures UserId(Some(s)) == 0
  {
  }

  /** TrackChanges works entry by entry, in place. */
  lemma TrackChangesAt(es: seq<Entry>, user: int, now: Instant, utcNow: Instant, i: nat)
    requires i < |es|
    ensures |TrackChanges(es, user, now, utcNow)| == |es|
    ensures TrackChanges(es, user, now, utcNow)[i] == TrackEntry(es[i], user, now, utcNow)
  {
  }

  /**
   * The three passes never change which instance an entry tracks, nor the
   * entity's type and properties; the only state change is a soft-deleted
   * entry leaving Deleted.
   */
  lemma TrackEntryKeepsIdentity(e: Entry, user: int, now: Instant, utcNow: Instant)
    ensures var t := TrackEntry(e, user, now, utcNow);
            && t.entity.ref == e.entity.ref && t.entity.id == e.entity.id
            && t.entity.caps == e.entity.caps && t.entity.properties == e.entity.properties
            && (t.state == e.state || (e.state == Deleted && (t.state == Unchanged || t.state == Modified)))
            && t.modified <= e.modified
  {
  }

  /**
   * Audit stamping, as seen after the whole of TrackChanges: an Added
   * auditable entity gets `CreatedBy`/`CreatedDate` and keeps its
   * last-modified pair; a Modified one gets `LastModifiedBy`/`LastModifiedDate`
   * and keeps its creation pair; any other state (a soft-deleted entity
   * included) and any non-auditable entity keeps its audit block.
   */
  lemma TrackEntryAudit(e: Entry, user: int, now: Instant, utcNow: Instant)
    ensures var a, a' := e.entity.audit, TrackEntry(e, user, now, utcNow).entity.audit;
            if e.entity.caps.auditable && e.state == Added then
              a' == a.(createdBy := user, createdDate := now)
            else if e.entity.caps.auditable && e.state == Modified then
              a' == a.(lastModifiedBy := Some(user), lastModifiedDate := Some(now))
            else a' == a
  {
  }

  /**
   * Soft delete. The pass itself sets a Deleted soft-delete entry Unchanged
   * and flags the entity; the change detection before the version pass then
   * sees the new flag, so after the whole of TrackChanges the entry is
   * Modified (or Unchanged when the entity was already flagged). A
   * soft-delete entity is never left Deleted; one in any other state, and
   * any entity without the capability, keeps its state and flag.
   */
  lemma TrackEntrySoftDelete(e: Entry, user: int, now: Instant, utcNow: Instant)
    ensures var pass := SoftDeleteEntry(StampEntry(e, user, now));
            var t := TrackEntry(e, user, now, utcNow);
            && (e.entity.caps.softDelete ==> t.state != Deleted)
            && (if e.entity.caps.softDelete && e.state == Deleted then
                  && pass.state == Unchanged && pass.entity.isDeleted
                  && t.state == (if e.entity.isDeleted then Unchanged else Modified) && t.entity.isDeleted
                else t.state == e.state && t.entity.isDeleted == e.entity.isDeleted)
  {
  }

  /**
   * Version events, as seen after the whole of TrackChanges: a
   * version-tracking entity whose state after the soft-delete pass and the
   * detection is above Unchanged (Added, Modified, Deleted without soft
   * delete, or just soft-deleted) gets exactly one EntityChangedEvent for
   * itself appended to its buffer, earlier events kept and a null buffer
   * started afresh; every other entity keeps its buffer.
   */
  lemma TrackEntryVersionEvents(e: Entry, user: int, now: Instant, utcNow: Instant)
    ensures var t := TrackEntry(e, user, now, utcNow);
            var raised := e.entity.caps.versionTracking &&
                          (|| e.state == Added || e.state == Modified
                           || (e.state == Deleted && (!e.entity.caps.softDelete || !e.entity.isDeleted)));
            if raised then t.entity.events == Some(BufferOf(e.entity) + [EntityChanged(e.entity.ref, utcNow)])
            else t.entity.events == e.entity.events
  {
  }

  /** TrackChanges keeps the tracker's invariant. */
  lemma TrackChangesValid(es: seq<Entry>, user: int, now: Instant, utcNow: Instant)
    requires TrackerValid(es)
    ensures TrackerValid(TrackChanges(es, user, now, utcNow))
  {
    var t := TrackChanges(es, user, now, utcNow);
    forall i | 0 <= i < |es|
      ensures t[i] == TrackEntry(es[i], user, now, utcNow)
      ensures t[i].entity.ref == es[i].entity.ref && EntryValid(t[i])
    {
      TrackEntryKeepsIdentity(es[i], user, now, utcNow);
    }
  }

  /** The entry of an instance after TrackChanges is its entry before, passed through the three passes. */
  lemma LookupTrackChanges(es: seq<Entry>, user: int, now: Instant, utcNow: Instant, ref: EntityRef)
    ensures Lookup(TrackChanges(es, user, now, utcNow), ref) ==
            match Lookup(es, ref) case Some(e) => Some(TrackEntry(e, user, now, utcNow)) case None => None
  {
    var t := TrackChanges(es, user, now, utcNow);
    forall i | 0 <= i < |es| ensures t[i].entity.ref == es[i].entity.ref {
      TrackEntryKeepsIdentity(es[i], user, now, utcNow);
    }
    match IndexOf(es, ref) {
      case Some(k) => IndexOfFirst(t, ref, k);
      case None =>
    }
  }

  /** Harvesting a tracker made of two parts: both must succeed, and the events come part after part. */
  lemma HarvestAppend(a: seq<Entry>, b: seq<Entry>)
    ensures Harvest(a + b).Ok? <==> Harvest(a).Ok? && Harvest(b).Ok?
    ensures Harvest(a + b).Ok? ==> Harvest(a + b).value == Harvest(a).value + Harvest(b).value
  {
    EntitiesWithEventsAppend(a, b);
    if EntitiesWithEvents(a).Ok? && EntitiesWithEvents(b).Ok? {
      EventsOfAppend(EntitiesWithEvents(a).value, EntitiesWithEvents(b).value);
    }
  }

  lemma {:induction false} EntitiesWithEventsAppend(a: seq<Entry>, b: seq<Entry>)
    ensures EntitiesWithEvents(a + b).Ok? <==> EntitiesWithEvents(a).Ok? && EntitiesWithEvents(b).Ok?
    ensures EntitiesWithEvents(a + b).Ok? ==>
              EntitiesWithEvents(a + b).value == EntitiesWithEvents(a).value + EntitiesWithEvents(b).value
    decreases |a|
  {
    if a == [] {
      assert a + b == b;
    } else {
      assert (a + b)[0] == a[0] && (a + b)[1..] == a[1..] + b;
      EntitiesWithEventsAppend(a[1..], b);
      if EntitiesWithEvents(a[1..] + b).Ok? {
        var rest, restA := EntitiesWithEvents(a[1..] + b).value, EntitiesWithEvents(a[1..]).value;
        assert [a[0].entity] + rest == [a[0].entity] + restA + EntitiesWithEvents(b).value;
      }
    }
  }

  lemma {:induction false} EventsOfAppend(xs: seq<Entity>, ys: seq<Entity>)
    ensures EventsOf(xs + ys) == EventsOf(xs) + EventsOf(ys)
    decreases |xs|
  {
    if xs == [] {
      assert xs + ys == ys;
    } else {
      assert (xs + ys)[1..] == xs[1..] + ys;
      EventsOfAppend(xs[1..], ys);
    }
  }

  /** The dispatch throws exactly when some event-owning entity has a null buffer. */
  lemma {:induction false} HarvestFailsOnNullBuffer(es: seq<Entry>)
    ensures Harvest(es).Err? <==>
            exists i :: 0 <= i < |es| && es[i].entity.caps.ownsEvents && es[i].entity.events.None?
    decreases |es|
  {
    if es != [] {
      HarvestFailsOnNullBuffer(es[1..]);
      assert forall i :: 1 <= i < |es| ==> es[i] == es[1..][i - 1];
      if exists i :: 0 <= i < |es[1..]| && es[1..][i].entity.caps.ownsEvents && es[1..][i].entity.events.None? {
        var i :| 0 <= i < |es[1..]| && es[1..][i].entity.caps.ownsEvents && es[1..][i].entity.events.None?;
        assert es[i + 1] == es[1..][i];
      }
    }
  }

  /**
   * What is published is exactly the events buffered on event-owning
   * entities: an event is published iff it sits in the buffer of some
   * event-owning entry.
   */
  lemma {:induction false} HarvestMembership(es: seq<Entry>, ev: DomainEvent)
    requires Harvest(es).Ok?
    ensures ev in Harvest(es).value <==>
            exists i :: 0 <= i < |es| && es[i].entity.caps.ownsEvents && ev in BufferOf(es[i].entity)
    decreases |es|
  {
    if es != [] {
      assert es == [es[0]] + es[1..];
      HarvestAppend([es[0]], es[1..]);
      HarvestMembership(es[1..], ev);
      var x := es[0].entity;
      assert Harvest([es[0]]).value == if x.caps.ownsEvents then BufferOf(x) else [] by {
        assert [es[0]][1..] == [];
        assert EntitiesWithEvents([es[0]][1..]) == Ok([]);
        assert EventsOf([x]) == BufferOf(x) + EventsOf([x][1..]);
        if x.caps.ownsEvents && x.events.Some? {
          var head := if x.events.value != [] then [x] else [];
          assert head + [] == head;
          assert EntitiesWithEvents([es[0]]) == Ok(head);
        }
      }
      assert forall i :: 1 <= i < |es| ==> es[i] == es[1..][i - 1];
      if exists i :: 0 <= i < |es[1..]| && es[1..][i].entity.caps.ownsEvents && ev in BufferOf(es[1..][i].entity) {
        var i :| 0 <= i < |es[1..]| && es[1..][i].entity.caps.ownsEvents && ev in BufferOf(es[1..][i].entity);
        assert es[i + 1] == es[1..][i];
      }
    }
  }

  /** With `isCommit == false` the pipeline returns 0 and changes and publishes nothing. */
  lemma NoCommitIsNoOp(es: seq<Entry>, authenticationEnabled: bool, hasMediator: bool, amb: Ambient)
    ensures Save(es, authenticationEnabled, hasMediator, false, amb) == Saved(es, [], Ok(0))
  {
  }

  /**
   * Every publish happens before the commit: a committing save's effects are
   * publishes followed by exactly one commit, except when the dispatch threw
   * (a null buffer, or a throwing handler), in which case there are only
   * publishes and no commit; a save without a mediator publishes nothing.
   */
  lemma PublishBeforeCommit(es: seq<Entry>, authenticationEnabled: bool, hasMediator: bool, amb: Ambient)
    ensures var s := Save(es, authenticationEnabled, hasMediator, true, amb);
            var committed := s.effects != [] && !s.effects[|s.effects| - 1].Published?;
            && (forall i :: 0 <= i < |s.effects| - 1 ==> s.effects[i].Published?)
            && (committed <==> s.result.Ok? || s.result == Err(StoreRejected))
            && (!committed ==> forall i :: 0 <= i < |s.effects| ==> s.effects[i].Published?)
            && (!hasMediator ==> |s.effects| == 1 && committed)
  {
  }

  /**
   * A handler that throws on the k-th publish ends the save there: the
   * publishes before it have happened, the store is never asked to commit,
   * and the tracker stays as TrackChanges left it.
   */
  lemma PublishFailureSkipsCommit(es: seq<Entry>, authenticationEnabled: bool, amb: Ambient)
    requires amb.publishFailsAt.Some?
    ensures var tracked := TrackChanges(es, StampingUser(authenticationEnabled, amb.nameIdentifier), amb.now, amb.utcNow);
            var s := Save(es, authenticationEnabled, true, true, amb);
            var k := amb.publishFailsAt.value;
            match Harvest(tracked)
            case Ok(evs) =>
              if k < |evs| then
                && s.entries == tracked && s.result == Err(PublishFailed)
                && |s.effects| == k && forall i :: 0 <= i < k ==> s.effects[i] == Published(evs[i])
              else s.result != Err(PublishFailed)
            case Err(_) => s.effects == []
  {
  }

  /**
   * Events are published whether or not the store then accepts the commit:
   * the publishes of a rejected commit are those of an accepted one.
   */
  lemma PublishedEvenIfCommitRejected(es: seq<Entry>, authenticationEnabled: bool, hasMediator: bool, amb: Ambient, rows: nat)
    ensures var ok := Save(es, authenticationEnabled, hasMediator, true, amb.(store := Accepts(rows)));
            var rejected := Save(es, authenticationEnabled, hasMediator, true, amb.(store := Rejects));
            && rejected.result == (if ok.result.Ok? then Err(StoreRejected) else ok.result)
            && |rejected.effects| == |ok.effects|
            && forall i :: 0 <= i < |ok.effects| - 1 ==> rejected.effects[i] == ok.effects[i]
  {
  }

  /** A context with authentication disabled stamps every creation with user 1, whatever the request says. */
  lemma UnauthenticatedStampsOne(e: Entry, amb: Ambient)
    requires e.entity.caps.auditable && e.state == Added
    ensures TrackEntry(e, StampingUser(false, amb.nameIdentifier), amb.now, amb.utcNow).entity.audit.createdBy == 1
  {
  }

  /** Only root, dictionary, soft-delete types get the filter, and it hides exactly the flagged rows. */
  lemma FilterHidesSoftDeleted(t: EntityType, x: Entity)
    requires t.caps == x.caps
    ensures !PassesFilter(ConfigureGlobalFilters(t), x) <==>
            !t.hasBaseType && x.caps.dictionary && x.caps.softDelete && x.isDeleted
  {
  }

  /** On a tracker where every entry is Unchanged, TrackChanges changes nothing. */
  lemma TrackChangesAllUnchanged(es: seq<Entry>, user: int, now: Instant, utcNow: Instant)
    requires forall i :: 0 <= i < |es| ==> es[i].state == Unchanged
    ensures TrackChanges(es, user, now, utcNow) == es
  {
    var t := TrackChanges(es, user, now, utcNow);
    assert forall i :: 0 <= i < |es| ==> t[i] == es[i];
  }

  /** Accepting changes keeps every entity's buffer, so when nothing is dropped the harvest is the same. */
  lemma {:induction false} HarvestAcceptAllChanges(es: seq<Entry>)
    requires forall i :: 0 <= i < |es| ==> es[i].state != Deleted
    ensures EntitiesWithEvents(AcceptAllChanges(es)) == EntitiesWithEvents(es)
    ensures Harvest(AcceptAllChanges(es)) == Harvest(es)
    decreases |es|
  {
    if es != [] {
      HarvestAcceptAllChanges(es[1..]);
      var a := AcceptAllChanges(es);
      assert a[0].entity == es[0].entity && a[1..] == AcceptAllChanges(es[1..]);
    }
  }

  /**
   * One entity's entry after a committed save: the pipeline's own view of it
   * (TrackEntry) when the save failed, and that view accepted (dropped if
   * Deleted, otherwise Unchanged with no flags) when it succeeded.
   */
  lemma LookupSave(es: seq<Entry>, authenticationEnabled: bool, hasMediator: bool, amb: Ambient, ref: EntityRef)
    requires TrackerValid(es)
    requires Lookup(es, ref).Some?
    ensures var t := TrackEntry(Lookup(es, ref).value, StampingUser(authenticationEnabled, amb.nameIdentifier), amb.now, amb.utcNow);
            var s := Save(es, authenticationEnabled, hasMediator, true, amb);
            if s.result.Err? then Lookup(s.entries, ref) == Some(t)
            else if t.state == Deleted then Lookup(s.entries, ref).None?
            else Lookup(s.entries, ref) == Some(Entry(t.entity, Unchanged, {}))
  {
    var user := StampingUser(authenticationEnabled, amb.nameIdentifier);
    var tracked := TrackChanges(es, user, amb.now, amb.utcNow);
    SaveEntries(es, authenticationEnabled, hasMediator, amb);
    LookupTrackChanges(es, user, amb.now, amb.utcNow, ref);
    TrackChangesValid(es, user, amb.now, amb.utcNow);
    LookupAcceptAllChanges(tracked, ref);
  }

  /**
   * A committed save succeeds only when the harvest went through, no handler
   * threw and the store accepted: it then published every harvested event,
   * committed once, and accepted the tracked entries.
   */
  lemma SaveSucceeded(es: seq<Entry>, authenticationEnabled: bool, hasMediator: bool, amb: Ambient)
    requires Save(es, authenticationEnabled, hasMediator, true, amb).result.Ok?
    ensures var tracked := TrackChanges(es, StampingUser(authenticationEnabled, amb.nameIdentifier), amb.now, amb.utcNow);
            var s := Save(es, authenticationEnabled, hasMediator, true, amb);
            && amb.store.Accepts?
            && (hasMediator ==> Harvest(tracked).Ok?)
            && var evs := if hasMediator then Harvest(tracked).value else [];
               && (amb.publishFailsAt.None? || amb.publishFailsAt.value >= |evs|)
               && s == Saved(AcceptAllChanges(tracked), Publications(evs) + [Committed(amb.store.rows)], Ok(amb.store.rows))
  {
  }

  /**
   * Saving a tracker with nothing pending still publishes whatever the
   * buffers hold, up to the handler that throws if one does, and otherwise
   * ends with the commit.
   */
  lemma SaveClean(es: seq<Entry>, authenticationEnabled: bool, amb: Ambient)
    requires forall i :: 0 <= i < |es| ==> es[i].state == Unchanged
    requires Harvest(es).Ok?
    ensures var evs := Harvest(es).value;
            var s := Save(es, authenticationEnabled, true, true, amb);
            if amb.publishFailsAt.Some? && amb.publishFailsAt.value < |evs| then
              s.effects == Publications(evs)[..amb.publishFailsAt.value] && s.result == Err(PublishFailed)
            else
              |s.effects| == |evs| + 1 && s.effects[..|evs|] == Publications(evs)
  {
    var evs := Harvest(es).value;
    TrackChangesAllUnchanged(es, StampingUser(authenticationEnabled, amb.nameIdentifier), amb.now, amb.utcNow);
    if amb.publishFailsAt.Some? && amb.publishFailsAt.value < |evs| {
      PublishFailureSkipsCommit(es, authenticationEnabled, amb);
    }
  }

  /** A committed save leaves the tracked entries accepted when it succeeds, and as TrackChanges left them when it fails. */
  lemma SaveEntries(es: seq<Entry>, authenticationEnabled: bool, hasMediator: bool, amb: Ambient)
    ensures var tracked := TrackChanges(es, StampingUser(authenticationEnabled, amb.nameIdentifier), amb.now, amb.utcNow);
            var s := Save(es, authenticationEnabled, hasMediator, true, amb);
            s.entries == if s.result.Ok? then AcceptAllChanges(tracked) else tracked
  {
  }

  /** Publishing two event lists one after the other is publishing their concatenation. */
  lemma PublicationsAppend(a: seq<DomainEvent>, b: seq<DomainEvent>)
    ensures Publications(a + b) == Publications(a) + Publications(b)
  {
    assert forall i :: 0 <= i < |a| + |b| ==> (a + b)[i] == if i < |a| then a[i] else b[i - |a|];
  }

  /** An event is published exactly when it is in the list, and nothing but publishes is produced. */
  lemma PublicationsMembership(evs: seq<DomainEvent>, ev: DomainEvent)
    ensures |Publications(evs)| == |evs|
    ensures Published(ev) in Publications(evs) <==> ev in evs
    ensures forall f :: f in Publications(evs) ==> f.Published?
  {
    if ev in evs {
      var i :| 0 <= i < |evs| && evs[i] == ev;
      assert Publications(evs)[i] == Published(ev);
    }
  }

  /**
   * `xs` is the selection of the entities of `es` at the strictly increasing
   * positions `idx`, and those are exactly the positions whose entry is
   * Collected.
   */
  ghost predicate SelectsCollected(es: seq<Entry>, xs: seq<Entity>, idx: seq<nat>)
  {
    && |idx| == |xs|
    && (forall k :: 0 <= k < |idx| ==> idx[k] < |es| && xs[k] == es[idx[k]].entity)
    && (forall k, l :: 0 <= k < l < |idx| ==> idx[k] < idx[l])
    && (forall i :: 0 <= i < |es| ==> (Collected(es[i]) <==> i in idx))
  }

  /**
   * The entities the dispatch collects, as an independent selection: there
   * are strictly increasing tracker positions such that the collected list
   * is the entities at those positions, and a position is among them exactly
   * when its entry is Collected. So every event owner with a non-empty
   * buffer is collected, once, in tracker order.
   */
  lemma {:induction false} EntitiesWithEventsSelects(es: seq<Entry>) returns (idx: seq<nat>)
    requires EntitiesWithEvents(es).Ok?
    ensures SelectsCollected(es, EntitiesWithEvents(es).value, idx)
    decreases |es|
  {
    if es == [] {
      idx := [];
    } else {
      var rest := EntitiesWithEventsSelects(es[1..]);
      var head := if Collected(es[0]) then [es[0].entity] else [];
      assert EntitiesWithEvents(es).value == head + EntitiesWithEvents(es[1..]).value;
      idx := SelectsCons(es, EntitiesWithEvents(es[1..]).value, rest);
    }
  }

  /** Extending a selection over the tail of a tracker to the whole tracker. */
  lemma SelectsCons(es: seq<Entry>, xs: seq<Entity>, rest: seq<nat>) returns (idx: seq<nat>)
    requires es != [] && SelectsCollected(es[1..], xs, rest)
    ensures SelectsCollected(es, (if Collected(es[0]) then [es[0].entity] else []) + xs, idx)
  {
    ShiftedPositions(es, xs, rest);
    ShiftedMembers(es, rest);
    if Collected(es[0]) {
      idx := [0] + Shift(rest);
      SelectsWithHead(es, xs, Shift(rest));
    } else {
      idx := Shift(rest);
      assert [] + xs == xs;
    }
  }

  /** A Collected first entry goes in front of the shifted selection. */
  lemma SelectsWithHead(es: seq<Entry>, xs: seq<Entity>, shifted: seq<nat>)
    requires es != [] && Collected(es[0]) && |shifted| == |xs|
    requires forall k :: 0 <= k < |xs| ==> 0 < shifted[k] < |es| && xs[k] == es[shifted[k]].entity
    requires forall k, l :: 0 <= k < l < |xs| ==> shifted[k] < shifted[l]
    requires forall i :: 1 <= i < |es| ==> (Collected(es[i]) <==> i in shifted)
    ensures SelectsCollected(es, [es[0].entity] + xs, [0] + shifted)
  {
    var idx := [0] + shifted;
    var ys := [es[0].entity] + xs;
    forall k | 0 <= k < |idx| ensures idx[k] < |es| && ys[k] == es[idx[k]].entity {
      if k > 0 {
        assert idx[k] == shifted[k - 1] && ys[k] == xs[k - 1];
      }
    }
    forall k, l | 0 <= k < l < |idx| ensures idx[k] < idx[l] {
      assert idx[l] == shifted[l - 1];
      if k > 0 {
        assert idx[k] == shifted[k - 1];
      }
    }
    forall i | 0 <= i < |es| ensures (Collected(es[i]) <==> i in idx) {
      assert i in idx <==> i == 0 || i in shifted;
    }
  }

  /** The shifted positions pick out the same entities from the whole tracker, still in increasing order. */
  lemma ShiftedPositions(es: seq<Entry>, xs: seq<Entity>, rest: seq<nat>)
    requires es != [] && SelectsCollected(es[1..], xs, rest)
    ensures |Shift(rest)| == |xs|
    ensures forall k :: 0 <= k < |xs| ==> 0 < Shift(rest)[k] < |es| && xs[k] == es[Shift(rest)[k]].entity
    ensures forall k, l :: 0 <= k < l < |xs| ==> Shift(rest)[k] < Shift(rest)[l]
  {
    forall k | 0 <= k < |xs| ensures 0 < Shift(rest)[k] < |es| && xs[k] == es[Shift(rest)[k]].entity {
      assert es[rest[k] + 1] == es[1..][rest[k]];
    }
  }

  /** A position past the first is shifted in exactly when its entry is Collected. */
  lemma ShiftedMembers(es: seq<Entry>, rest: seq<nat>)
    requires es != []
    requires forall i :: 0 <= i < |es[1..]| ==> (Collected(es[1..][i]) <==> i in rest)
    ensures 0 !in Shift(rest)
    ensures forall i :: 1 <= i < |es| ==> (Collected(es[i]) <==> i in Shift(rest))
  {
    var shifted := Shift(rest);
    forall i | 1 <= i < |es| ensures (Collected(es[i]) <==> i in shifted) {
      assert es[i] == es[1..][i - 1];
      if Collected(es[i]) {
        var k :| 0 <= k < |rest| && rest[k] == i - 1;
        assert shifted[k] == i;
      }
    }
  }

  /** Every position one further on. */
  function Shift(idx: seq<nat>): (r: seq<nat>)
    ensures |r| == |idx|
    ensures forall k :: 0 <= k < |idx| ==> r[k] == idx[k] + 1
  {
    seq(|idx|, k requires 0 <= k < |idx| => idx[k] + 1)
  }

  /**
   * The context as written never installs a filter: model building fails on
   * the first entity type, even on a type the intended decision filters.
   */
  lemma FilterNeverInstalledAsWritten(t: EntityType)
    requires !t.hasBaseType && t.caps.dictionary && t.caps.softDelete
    ensures ConfigureGlobalFilters(t) == Some(NotDeleted)
    ensures OnModelCreatingAsWritten([t]) == Err(NullMethodInfo)
    ensures forall types :: OnModelCreatingAsWritten(types).Ok? ==> types == []
  {
  }
}
