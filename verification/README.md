# EmiSoft save pipeline — a Dafny model

This project models the write side of the EmiSoft Entity Framework Core
repository package:

- `ApplicationDbContext`: the save pipeline. A save with `isCommit` first
  stamps the audit fields of Added and Modified auditable entities. It then
  turns every Deleted soft-delete entity into an Unchanged one flagged
  `IsDeleted`. The framework's change detection, which runs when the next
  pass asks for the tracker's entries, sees that new flag and makes such an
  entry Modified. Next the pipeline appends an `EntityChangedEvent` to every
  version-tracking entity whose state is above Unchanged. When a mediator is
  configured, it publishes every buffered domain event; a handler that
  throws ends the save there. Only then does it commit to the store. The model also covers the current-user lookup
  (`UserId`), the per-entity-type global query filter, and both constructors.
- `EfRepository`: the mutators. Add, AddRange, Attach, AttachRange, Delete,
  DeleteRange, Update, SaveChanges and the two sparse updates stage
  entities in the change tracker and then run the context's pipeline.
- `LanguageOperation`: the culture / language-id lookup table.

The change tracker is an ordered sequence of entries. Each entry holds an
entity value, an `EntityState` and the set of properties flagged modified.
The `EntityState` order is the framework's numeric one:
Detached < Unchanged < Deleted < Modified < Added. An entity carries its
capability flags (auditable, soft delete, version tracking, owns events,
dictionary entity), its audit block, its `IsDeleted` flag and its event
buffer, which may be null (`None`). The context is a class whose `entries`
field is the tracker and whose `effects` field is an ordered log of what
the outside world observes: each publish to the mediator, then the store's
commit or its rejection. The request's `NameIdentifier` claim, the clock,
the position of the first publish whose handler throws (`publishFailsAt`)
and the store's reply are parameters (`Ambient`).

Files:

- `wrappers.dfy`: `Option`, `Result`, `Outcome`.
- `entity_model.dfy`: entities, states, events, tracker entries.
- `change_tracker.dfy`: the framework's tracker operations the repository relies on.
  These are lookup, staging (Add / Attach / Update / Remove), per-property
  modified flags and accepting changes after a commit.
- `int32_parsing.dfy`: `int.TryParse` for 32-bit integers, and the decimal rendering it inverts.
- `localization.dfy`: `LanguageOperation` and `LanguageCode`.
- `save_pipeline.dfy`: the pipeline as functions, and the properties proved about them.
- `application_db_context.dfy`: the context class. Its loops are proved equal to the functions in `save_pipeline.dfy`.
- `ef_repository.dfy`: the repository class, plus lemmas about whole repository operations.

Where the code and its own comments disagree, the model follows the code:

- The comment at `ApplicationDbContext.cs:89` says events are dispatched
  only if the save succeeded. The code publishes them before
  `base.SaveChangesAsync` runs, so they are published even when the store
  then rejects the commit. See `PublishBeforeCommit` and
  `PublishedEvenIfCommitRejected`.
- The dispatch only reads the event buffers and never clears them. The
  next committed save therefore publishes the same events again. See
  `EventsRepublishedOnNextSave`.

## Model

| member | source | states |
|---|---|---|
| DbContext.ApplicationDbContext.WithMediator | EmiSoft.Repository.EntityFrameworkCore/ApplicationDbContext.cs:20-24 | the mediator-only context has a mediator, authentication disabled and an empty tracker |
| DbContext.ApplicationDbContext.WithHttpContext | EmiSoft.Repository.EntityFrameworkCore/ApplicationDbContext.cs:26-33 | the HTTP-context constructor keeps the caller's authentication switch (default on) and has a mediator |
| DbContext.ApplicationDbContext.OnModelCreating | EmiSoft.Repository.EntityFrameworkCore/ApplicationDbContext.cs:39-44 | the intended model building (see Findings): a type gets a filter exactly when it has no base type and is a dictionary and soft-delete type |
| SavePipeline.ConfigureGlobalFilters | EmiSoft.Repository.EntityFrameworkCore/ApplicationDbContext.cs:49-75 | the filter is present iff the type has no base type, is a dictionary entity and is soft-delete |
| SavePipeline.FilterHidesSoftDeleted | EmiSoft.Repository.EntityFrameworkCore/ApplicationDbContext.cs:51-72 | an entity fails its type's filter iff the type is a root dictionary soft-delete type and the entity is flagged deleted |
| SavePipeline.FilterNeverInstalledAsWritten | EmiSoft.Repository.EntityFrameworkCore/ApplicationDbContext.cs:19-44 | as written, model building fails on the first entity type, even one the intended decision filters, so it succeeds only on an empty model |
| DbContext.ApplicationDbContext.SaveChanges | EmiSoft.Repository.EntityFrameworkCore/ApplicationDbContext.cs:79-93 | the new tracker, the appended effects and the result are those of `Save`, including a throwing handler; without commit: 0, nothing changed |
| SavePipeline.NoCommitIsNoOp | EmiSoft.Repository.EntityFrameworkCore/ApplicationDbContext.cs:81-82 | without `isCommit` the tracker is returned as is, nothing is published or committed, the result is 0 |
| SavePipeline.PublishBeforeCommit | EmiSoft.Repository.EntityFrameworkCore/ApplicationDbContext.cs:86-92 | every effect but the last is a publish; the save committed (last effect not a publish) iff it succeeded or the store rejected it; otherwise there are only publishes; no mediator, no publish and one commit |
| SavePipeline.PublishFailureSkipsCommit | EmiSoft.Repository.EntityFrameworkCore/ApplicationDbContext.cs:87-92 | a handler throwing on publish k: exactly the first k events are published, nothing is committed, the save fails and the tracker stays as the passes left it |
| SavePipeline.PublishedEvenIfCommitRejected | EmiSoft.Repository.EntityFrameworkCore/ApplicationDbContext.cs:87-92 | a rejected commit publishes exactly what an accepted one does, and fails |
| DbContext.ApplicationDbContext.TrackChanges | EmiSoft.Repository.EntityFrameworkCore/ApplicationDbContext.cs:95-133 | the three passes and the change detection leave the tracker equal to `TrackChanges` of the old tracker and keep it valid; nothing is published |
| DbContext.ApplicationDbContext.SetAuditProperties | EmiSoft.Repository.EntityFrameworkCore/ApplicationDbContext.cs:98-111 | the audit loop leaves the tracker equal to `StampAudit` of the old one |
| DbContext.ApplicationDbContext.SetSoftDeleteProperties | EmiSoft.Repository.EntityFrameworkCore/ApplicationDbContext.cs:113-122 | the soft-delete loop leaves the tracker equal to `ApplySoftDelete` of the old one |
| DbContext.ApplicationDbContext.DetectSoftDeleteChanges | EmiSoft.Repository.EntityFrameworkCore/ApplicationDbContext.cs:124 | the detection loop leaves the tracker equal to `DetectChanges` of the snapshot and the old tracker |
| DbContext.ApplicationDbContext.RaiseEntityChangedEvents | EmiSoft.Repository.EntityFrameworkCore/ApplicationDbContext.cs:124-132 | the version loop leaves the tracker equal to `RaiseVersionEvents` of the old one |
| SavePipeline.TrackChangesAt | EmiSoft.Repository.EntityFrameworkCore/ApplicationDbContext.cs:95-133 | the passes work in place, entry by entry |
| SavePipeline.TrackEntryKeepsIdentity | EmiSoft.Repository.EntityFrameworkCore/ApplicationDbContext.cs:95-133 | the passes keep each entry's instance, key, type and properties; the only state change is Deleted to Unchanged (already flagged) or to Modified (newly flagged) |
| SavePipeline.TrackChangesValid | EmiSoft.Repository.EntityFrameworkCore/ApplicationDbContext.cs:95-133 | the passes keep the tracker's invariant |
| SavePipeline.LookupTrackChanges | EmiSoft.Repository.EntityFrameworkCore/ApplicationDbContext.cs:95-133 | an instance's entry afterwards is its entry before, passed through the passes and the detection |
| SavePipeline.TrackEntryAudit | EmiSoft.Repository.EntityFrameworkCore/ApplicationDbContext.cs:98-111 | Added auditable: created pair stamped, last-modified kept; Modified: last-modified stamped, created kept; otherwise (soft-deleted too) untouched |
| SavePipeline.UnauthenticatedStampsOne | EmiSoft.Repository.EntityFrameworkCore/ApplicationDbContext.cs:103 | with authentication disabled the creator is 1 whatever the request says |
| SavePipeline.TrackEntrySoftDelete | EmiSoft.Repository.EntityFrameworkCore/ApplicationDbContext.cs:113-126 | no soft-delete entity stays Deleted; the pass makes a Deleted one Unchanged and flagged, and the detection then makes it Modified unless it was already flagged; all others keep state and flag |
| SavePipeline.TrackEntryVersionEvents | EmiSoft.Repository.EntityFrameworkCore/ApplicationDbContext.cs:124-132 | exactly one change event for itself is appended (a null buffer becomes a one-element list) iff the entity is version-tracking and Added, Modified, hard-deleted, or soft-deleted without having been flagged before; others keep their buffer |
| DbContext.ApplicationDbContext.DispatchEvents | EmiSoft.Repository.EntityFrameworkCore/ApplicationDbContext.cs:135-150 | publishes `Harvest` of the tracker in order, or only its first k events when the handler of publish k throws; a null buffer throws before any publish; the tracker is untouched |
| DbContext.ApplicationDbContext.CollectEventOwners | EmiSoft.Repository.EntityFrameworkCore/ApplicationDbContext.cs:138-141 | the collecting loop returns `EntitiesWithEvents` of the tracker |
| DbContext.ApplicationDbContext.PublishEvents | EmiSoft.Repository.EntityFrameworkCore/ApplicationDbContext.cs:143-149 | publishes the collected buffers' events in order, or only the first k when the handler of publish k throws |
| DbContext.ApplicationDbContext.PublishBuffer | EmiSoft.Repository.EntityFrameworkCore/ApplicationDbContext.cs:145-148 | publishes one buffer in order, stopping with an error at the publish whose handler throws |
| SavePipeline.EntitiesWithEvents | EmiSoft.Repository.EntityFrameworkCore/ApplicationDbContext.cs:138-141 | the entities collected own events and have a non-empty buffer; the collection fails, with the null-buffer error, iff some event owner has a null buffer |
| SavePipeline.EntitiesWithEventsSelects | EmiSoft.Repository.EntityFrameworkCore/ApplicationDbContext.cs:138-141 | when it succeeds, the collection is exactly the entries that own events with a non-empty buffer, at increasing positions: tracker order |
| SavePipeline.EntitiesWithEventsAppend | EmiSoft.Repository.EntityFrameworkCore/ApplicationDbContext.cs:138-141 | collecting from two tracker parts succeeds iff both do, and the entities come part after part |
| SavePipeline.PublicationsAppend | EmiSoft.Repository.EntityFrameworkCore/ApplicationDbContext.cs:143-149 | publishing two event lists one after the other is publishing their concatenation |
| SavePipeline.PublicationsMembership | EmiSoft.Repository.EntityFrameworkCore/ApplicationDbContext.cs:143-149 | one publish per event: an event is published iff it is in the list, and nothing but publishes is produced |
| SavePipeline.HarvestAppend | EmiSoft.Repository.EntityFrameworkCore/ApplicationDbContext.cs:138-149 | the harvest of two tracker parts succeeds iff both do, and its events come part after part (tracker order) |
| SavePipeline.HarvestFailsOnNullBuffer | EmiSoft.Repository.EntityFrameworkCore/ApplicationDbContext.cs:138-141 | dispatch throws iff some event-owning entity has a null buffer |
| SavePipeline.HarvestMembership | EmiSoft.Repository.EntityFrameworkCore/ApplicationDbContext.cs:138-149 | an event is published iff it is in the buffer of some event-owning entry |
| DbContext.ApplicationDbContext.CommitToStore | EmiSoft.Repository.EntityFrameworkCore/ApplicationDbContext.cs:92 | an accepted commit accepts all changes and returns the row count; a rejected one leaves the tracker and fails |
| SavePipeline.LookupSave | EmiSoft.Repository.EntityFrameworkCore/ApplicationDbContext.cs:79-93 | a tracked instance after a committed save: its pipeline entry if the save failed; if it succeeded, that entry accepted (dropped when Deleted) |
| SavePipeline.SaveEntries | EmiSoft.Repository.EntityFrameworkCore/ApplicationDbContext.cs:79-93 | the tracker after a committed save is the passes' result, accepted iff the save succeeded |
| SavePipeline.SaveSucceeded | EmiSoft.Repository.EntityFrameworkCore/ApplicationDbContext.cs:79-93 | a save succeeds only when the harvest went through, no handler threw and the store accepted; it then published every event and committed once |
| SavePipeline.SaveClean | EmiSoft.Repository.EntityFrameworkCore/ApplicationDbContext.cs:87-92 | a save with nothing pending still publishes every buffered event, up to a throwing handler, and otherwise commits after them |
| SavePipeline.HarvestAcceptAllChanges | EmiSoft.Repository.EntityFrameworkCore/ApplicationDbContext.cs:138-149 | accepting changes with nothing Deleted keeps every buffer, so the harvest is unchanged |
| SavePipeline.TrackChangesAllUnchanged | EmiSoft.Repository.EntityFrameworkCore/ApplicationDbContext.cs:95-133 | on an all-Unchanged tracker the passes and the detection change nothing |
| SavePipeline.UserId | EmiSoft.Repository.EntityFrameworkCore/ApplicationDbContext.cs:152-157 | the user id is a 32-bit integer, 0 when the claim is absent |
| SavePipeline.UserIdUnparsable | EmiSoft.Repository.EntityFrameworkCore/ApplicationDbContext.cs:155-156 | a claim that is not an integer gives 0 |
| SavePipeline.UserIdRoundTrip | EmiSoft.Repository.EntityFrameworkCore/ApplicationDbContext.cs:155-156 | a claim holding the decimal form of a 32-bit integer gives back that integer |
| Int32Parsing.TryParseInt32 | EmiSoft.Repository.EntityFrameworkCore/ApplicationDbContext.cs:155 | a successful parse is within the 32-bit range |
| Int32Parsing.ParseFormatRoundTrip | EmiSoft.Repository.EntityFrameworkCore/ApplicationDbContext.cs:155 | parsing the decimal form of any 32-bit integer gives it back |
| Int32Parsing.ParseSignedDigits | EmiSoft.Repository.EntityFrameworkCore/ApplicationDbContext.cs:155 | digits after an optional minus sign parse to their value or its negation when that fits in 32 bits |
| Int32Parsing.NoDigitsNoParse | EmiSoft.Repository.EntityFrameworkCore/ApplicationDbContext.cs:155 | a string without a digit never parses |
| Int32Parsing.DecimalStringValue | EmiSoft.Repository.EntityFrameworkCore/ApplicationDbContext.cs:155 | the digits of the decimal form denote the number |
| Repository.EfRepository.constructor | EmiSoft.Repository.EntityFrameworkCore/EfRepository.cs:26-30 | the repository works on the given context |
| Repository.EfRepository.Add | EmiSoft.Repository.EntityFrameworkCore/EfRepository.cs:32-37 | stages the entity for insertion, then runs the pipeline with the caller's `isCommit` |
| Repository.AddCommittedStampsCreation | EmiSoft.Repository.EntityFrameworkCore/EfRepository.cs:32-37 | an added auditable entity, committed, has its created pair stamped and its last-modified pair kept; Unchanged if the save succeeded, else still Added |
| Repository.EfRepository.AddRange | EmiSoft.Repository.EntityFrameworkCore/EfRepository.cs:44-48 | stages every entity, then runs the pipeline once |
| ChangeTracker.StageRangeStagesAll | EmiSoft.Repository.EntityFrameworkCore/EfRepository.cs:44-70 | after staging a range, every element's entry is staged as the operation says |
| ChangeTracker.StageRangeUntouched | EmiSoft.Repository.EntityFrameworkCore/EfRepository.cs:44-70 | staging a range leaves every instance outside it as it was |
| ChangeTracker.StageRangePreservesValid | EmiSoft.Repository.EntityFrameworkCore/EfRepository.cs:44-70 | staging a range keeps the tracker's invariant |
| Repository.EfRepository.Attach | EmiSoft.Repository.EntityFrameworkCore/EfRepository.cs:50 | stages the entity; no publish, no commit |
| Repository.EfRepository.AttachRange | EmiSoft.Repository.EntityFrameworkCore/EfRepository.cs:52 | stages every entity; no publish, no commit |
| Repository.EfRepository.Delete | EmiSoft.Repository.EntityFrameworkCore/EfRepository.cs:54-64 | stages the entity for removal, then runs the pipeline with the caller's `isCommit` |
| Repository.DeleteSoftDeleteCommitted | EmiSoft.Repository.EntityFrameworkCore/EfRepository.cs:54-64 | a soft-delete entity deleted with commit stays tracked, flagged, not stamped, with a change event iff it is version-tracking and was not flagged before; Unchanged if the save succeeded or it was already flagged, else Modified |
| Repository.DeleteWithoutCommit | EmiSoft.Repository.EntityFrameworkCore/EfRepository.cs:54-64 | deleted without commit, the entity stays Deleted |
| Repository.SoftDeletedHiddenFromQueries | EmiSoft.Repository.EntityFrameworkCore/EfRepository.cs:54-64 | a soft-deleted root dictionary entity no longer passes its type's query filter |
| Repository.EfRepository.DeleteRange | EmiSoft.Repository.EntityFrameworkCore/EfRepository.cs:66-70 | stages every entity for removal, then runs the pipeline once |
| Repository.EfRepository.Update | EmiSoft.Repository.EntityFrameworkCore/EfRepository.cs:72-76 | stages the entity for update, then runs the pipeline |
| Repository.UpdateCommittedStampsModification | EmiSoft.Repository.EntityFrameworkCore/EfRepository.cs:72-76 | an updated auditable entity with a key, committed, has its last-modified pair stamped and its created pair kept |
| Repository.EfRepository.SaveChanges | EmiSoft.Repository.EntityFrameworkCore/EfRepository.cs:78 | returns exactly what the context's pipeline returns, so 0 without commit |
| Repository.EfRepository.UpdateSpecialProperties | EmiSoft.Repository.EntityFrameworkCore/EfRepository.cs:146-158 | sets the entry Unchanged, flags each named property, then saves; an unmapped name throws before saving |
| ChangeTracker.MarkSpecialProperties | EmiSoft.Repository.EntityFrameworkCore/EfRepository.cs:150-155 | the modified set is exactly the named properties; Modified iff some were named |
| Repository.SpecialPropertiesStaged | EmiSoft.Repository.EntityFrameworkCore/EfRepository.cs:146-158 | a sparse update of mapped properties stages exactly those, and on commit stamps the last-modified pair |
| Repository.EfRepository.UpdateExceptedProperties | EmiSoft.Repository.EntityFrameworkCore/EfRepository.cs:160-172 | sets the entry Modified with all flags, unflags each named property, then saves (by default without commit) |
| ChangeTracker.MarkExceptedProperties | EmiSoft.Repository.EntityFrameworkCore/EfRepository.cs:164-169 | naming mapped properties or the key: no error, and the modified set is all mapped properties minus the named ones |
| Repository.ExceptedPropertiesStaged | EmiSoft.Repository.EntityFrameworkCore/EfRepository.cs:160-172 | with the default `isCommit` the entry stays staged with all properties but the named ones flagged |
| ChangeTracker.MarkPropertiesRejects | EmiSoft.Repository.EntityFrameworkCore/EfRepository.cs:152-155 | flagging fails iff some name may not take the flag (unmapped, or the key when setting), and the name reported is such a name |
| ChangeTracker.MarkPropertiesStopsAtError | EmiSoft.Repository.EntityFrameworkCore/EfRepository.cs:152-155 | names after the first unmapped one are never looked at |
| ChangeTracker.KeyOnlyCleared | EmiSoft.Repository.EntityFrameworkCore/EfRepository.cs:146-172 | the key property may have its modified flag cleared, but flagging it throws and changes nothing |
| Repository.EventsRepublishedOnNextSave | EmiSoft.Repository.EntityFrameworkCore/ApplicationDbContext.cs:138-149 | after a successful save, the next save publishes the same events again, up to the handler that throws if one does |
| Localization.LanguageCode.Value | EmiSoft.Repository.EntityFrameworkCore/Utility/LanguageOperation.cs:39-45 | codes are 0 to 3, and only None is 0 |
| Localization.FindByCulture | EmiSoft.Repository.EntityFrameworkCore/Utility/LanguageOperation.cs:14-24 | always a supported language; its culture equals the argument iff the argument is a known culture; otherwise English |
| Localization.FindById | EmiSoft.Repository.EntityFrameworkCore/Utility/LanguageOperation.cs:26-36 | always a supported language; its value equals the argument iff it is 1 to 3; otherwise English |
| Localization.FindKnownCultures | EmiSoft.Repository.EntityFrameworkCore/Utility/LanguageOperation.cs:10-21 | az-AZ, en-US and ru-RU map to Azerbaijan (1), English (2) and Russian (3) |
| Localization.SupportedValues | EmiSoft.Repository.EntityFrameworkCore/Utility/LanguageOperation.cs:10-12 | every instance's value is 1 to 3, never None, and its culture is known |
| Localization.CultureThenIdRoundTrip | EmiSoft.Repository.EntityFrameworkCore/Utility/LanguageOperation.cs:14-36 | looking up by the found value gives back the same instance |
| Localization.IdThenCultureRoundTrip | EmiSoft.Repository.EntityFrameworkCore/Utility/LanguageOperation.cs:14-36 | looking up by the found culture gives back the same instance |

## Left out

- Entity Framework's change tracker is modelled by its documented behaviour, not by its code. The framework source is not part of this model. The assumed behaviour:
  - Attach or Update of an untracked entity with an unset key (`Id == 0`) stages it as Added.
  - Update of an entity tracked as Added leaves it Added.
  - Remove of an entity tracked as Added detaches it.
  - Flagging a property on an Unchanged entry makes it Modified.
  - Unflagging the last flagged property of a Modified entry makes it Unchanged.
  - An accepted commit drops Deleted entries and makes all others Unchanged with no flags.
  - A rejected commit leaves the tracker as it was.
- Change detection is modelled where the pipeline's own write triggers it. `Entries<IDataVersionTracking>()` (`ApplicationDbContext.cs:124`) runs the framework's `DetectChanges`. That sees the `IsDeleted` value the soft-delete pass wrote, and makes the entry Modified (`DetectEntry`).
- The earlier detections find nothing: the explicit call at `ApplicationDbContext.cs:84`, and those inside the audit and soft-delete passes' `Entries<T>()`. The entries hold the entities' current values, and the audit stamps touch only Added or Modified entries.
- Which properties the detection flags as modified is not modelled: a detected entry is Modified with no property flagged. Property changes made by the caller after staging are not modelled either.
- SavePipeline.TrackEntryVersionEvents: the event a soft delete raises comes from the detection above; the framework's flagging of `IsDeleted` that goes with it is not modelled.
- Repository.DeleteSoftDeleteCommitted: after a failed save the entry is Modified with no property flagged; the framework would also flag `IsDeleted`.
- Store-generated keys are not modelled. The store's reply is a parameter: a row count or a rejection.
- Repository.EfRepository.UpdateExceptedProperties: every entity has exactly one key property, `Id`, kept apart from its mapped non-key properties. Setting an entry Modified flags the non-key ones only. Naming the key may clear its flag, but flagging it throws (`Settable`, `KeyOnlyCleared`). Composite keys and shadow properties are not modelled.
- The clock is read once per save (`now` for stamps, `utcNow` for event timestamps). The source reads `DateTime.Now` once per stamped entry.
- Async, `CancellationToken` and concurrency are left out. Each operation runs to completion in one step.
- A null `HttpContext` (a `NullReferenceException` in `UserId`) is not modelled. The request's `NameIdentifier` claim is a parameter, absent when there is no identity or claim.
- Int32Parsing.TryParseInt32: culture-specific signs and trailing NUL characters are not modelled. It accepts surrounding whitespace, an optional sign and ASCII digits within the 32-bit range.
- The constructors' `ArgumentNullException` checks are not modelled. A constructed context therefore always has a mediator, and the no-mediator path of the pipeline is reachable only through `Save`.
- `ApplyAllConfigurationsFromCurrentAssembly`, `ChangeDeleteBehaviorToNoAction`, the reflection-based dispatch to `ConfigureGlobalFilters` and `ExpressionCombiner` are not modelled. Each type's filter is a decision on its capability flags.
- DbContext.ApplicationDbContext.OnModelCreating: models the intended model building. As written it throws and installs no filter (see Findings).
- Repository.SoftDeletedHiddenFromQueries: holds for the filter the intended model building installs. As written, no filter is installed, and soft-deleted rows stay visible to queries.
- `ShouldFilterEntity` is virtual. Overrides in subclasses of the context are not modelled; the model uses the context's own decision (dictionary entities).
- A throwing publish handler is modelled by its position (`publishFailsAt`). Which exception it throws is not modelled: every one surfaces as `PublishFailed`.
- The two `DeleteAsync` overloads differ only in their cancellation token, so both are modelled as `Delete`.
- The read paths (`Find`, `FindAll`, `FindBy`, `Get`, `GetAll` and their async forms, `GetTempId`) are not modelled. Neither are `IncludeMany`, the thread-culture `Culture` property or `EfUnitOfWork`.
- The domain classes are represented only by the fields the pipeline uses. An `EntityChangedEvent` carries the entity's reference and the UTC time.
- Repository.EventsRepublishedOnNextSave: stated only for a tracker with no hard delete pending, so that the commit drops no event owner.

## Findings

| source | as written | input that shows it | evidently intended | confidence | as-written member | corrected member |
|---|---|---|---|---|---|---|
| EmiSoft.Repository.EntityFrameworkCore/ApplicationDbContext.cs:19 | the `MethodInfo` for `ConfigureGlobalFilters` is looked up on `typeof(DbContext)`, which does not declare it, so the field is null; `OnModelCreating` (lines 41-43) then throws on the first entity type | any model with an entity type, e.g. one root dictionary soft-delete type | look the method up on the context's own type, so that each type gets its filter | not executed | SavePipeline.FilterNeverInstalledAsWritten | DbContext.ApplicationDbContext.OnModelCreating |
