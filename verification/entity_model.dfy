/**
 * The data the save pipeline works on: entities with their capability
 * markers, audit block, soft-delete flag and event buffer, and the change
 * tracker's entries that pair an entity with its EntityState.
 */
module EntityModel {
  import opened Wrappers

  /** A `DateTime` value, as ticks. */
  type Instant = int

  /** Object identity of an entity instance (the reference the tracker holds). */
  type EntityRef = nat

  /** The name of a mapped, non-key property. */
  type PropertyName = string

  /**
   * The framework's EntityState. Its numbering (Detached = 0 ... Added = 4)
   * matters: the pipeline compares states with `>`.
   */
  datatype EntityState = Detached | Unchanged | Deleted | Modified | Added {
    function Ordinal(): (n: nat)
      ensures n <= 4
      ensures n == 0 <==> this == Detached
    {
      match this
      case Detached => 0
      case Unchanged => 1
      case Deleted => 2
      case Modified => 3
      case Added => 4
    }
  }

  /**
   * Domain events buffered on an entity. `EntityChanged` is the event the
   * pipeline raises for version-tracking entities; its payload is the entity
   * object itself, so it is identified here by reference. `Raised` stands for
   * any other event the domain code put into the buffer.
   */
  datatype DomainEvent =
    | EntityChanged(data: EntityRef, dateOccurred: Instant)
    | Raised(name: string, dateOccurred: Instant)

  /**
   * Which capability interfaces the entity's type implements:
   * IAuditableEntity, ISoftDelete, IDataVersionTracking, IDomainEventEntity
   * and IDictionaryEntity.
   */
  datatype Capabilities = Capabilities(
    auditable: bool,
    softDelete: bool,
    versionTracking: bool,
    ownsEvents: bool,
    dictionary: bool)

  /** The audit block: `CreatedBy`/`CreatedDate` are plain, the last-modified pair is nullable. */
  datatype Audit = Audit(
    createdBy: int,
    createdDate: Instant,
    lastModifiedBy: Option<int>,
    lastModifiedDate: Option<Instant>)

  /**
   * An entity instance. `id` is the store-generated key (0 while unset);
   * `properties` are the mapped non-key properties of its type; `audit`,
   * `isDeleted` and `events` are meaningful only when `caps` says the type
   * has the corresponding capability. `events == None` is a null buffer.
   */
  datatype Entity = Entity(
    ref: EntityRef,
    id: int,
    caps: Capabilities,
    properties: set<PropertyName>,
    audit: Audit,
    isDeleted: bool,
    events: Option<seq<DomainEvent>>)

  /** A change-tracker entry: the entity, its state and its modified-property flags. */
  datatype Entry = Entry(entity: Entity, state: EntityState, modified: set<PropertyName>)

  /** Whether the store-generated key has been assigned. */
  predicate KeySet(x: Entity)
  {
    x.id != 0
  }
}
