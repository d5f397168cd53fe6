/**
 * The framework's change tracker as the repository and the save pipeline use
 * it: an ordered sequence of entries, at most one per entity instance and
 * none Detached. The staging operations (Add, Attach, Update, Remove and
 * their ranges), the explicit `State`/`IsModified` assignments and the
 * acceptance of changes after a successful commit are stated here as
 * functions on that sequence.
 */
module ChangeTracker {
  import opened Wrappers
  import opened EntityModel

  /** The position of the entry that tracks `ref`: the first one, if any. */
  function IndexOf(es: seq<Entry>, ref: EntityRef): (r: Option<nat>)
    ensures r.Some? ==> r.value < |es| && es[r.value].entity.ref == ref
    ensures r.Some? ==> forall j :: 0 <= j < r.value ==> es[j].entity.ref != ref
    ensures r.None? <==> forall j :: 0 <= j < |es| ==> es[j].entity.ref != ref
    decreases |es|
  {
    if |es| == 0 then None
    else if es[0].entity.ref == ref then Some(0)
    else match IndexOf(es[1..], ref)
      case Some(k) => Some(k + 1)
      case None => None
  }

  /** The entry that tracks `ref`, if any (`context.Entry(entity)` on a tracked entity). */
  function Lookup(es: seq<Entry>, ref: EntityRef): (r: Option<Entry>)
    ensures r.Some? ==> r.value in es && r.value.entity.ref == ref
    ensures r.None? <==> forall e :: e in es ==> e.entity.ref != ref
  {
    match IndexOf(es, ref)
    case Some(i) => Some(es[i])
    case None => None
  }

  /** Each entity instance is tracked by at most one entry. */
  ghost predicate DistinctRefs(es: seq<Entry>)
  {
    forall i, j :: 0 <= i < j < |es| ==> es[i].entity.ref != es[j].entity.ref
  }

  /**
   * The tracker's invariant: one entry per instance, no entry Detached (a
   * detached entity is simply not in the tracker), and only mapped
   * properties flagged as modified.
   */
  ghost predicate TrackerValid(es: seq<Entry>)
  {
    && DistinctRefs(es)
    && forall i :: 0 <= i < |es| ==> es[i].state != Detached && es[i].modified <= es[i].entity.properties
  }

  /** An entry that may sit in a valid tracker. */
  ghost predicate EntryValid(e: Entry)
  {
    e.state != Detached && e.modified <= e.entity.properties
  }

  /** Puts `e` in place of the entry of the same instance, or starts tracking it at the end. */
  function SetEntry(es: seq<Entry>, e: Entry): seq<Entry>
  {
    match IndexOf(es, e.entity.ref)
    case Some(i) => es[i := e]
    case None => es + [e]
  }

  /** Stops tracking `ref` (the entity becomes Detached). */
  function Untrack(es: seq<Entry>, ref: EntityRef): seq<Entry>
  {
    match IndexOf(es, ref)
    case Some(i) => es[..i] + es[i + 1..]
    case None => es
  }

  /** The four ways a DbSet stages an entity. */
  datatype StageOp = AddOp | AttachOp | UpdateOp | RemoveOp

  /**
   * The entry the framework leaves for `x` when `op` is applied to it and
   * `current` is its entry before (None: not tracked). A result of None means
   * the entity ends up Detached.
   *  - Add: Added.
   *  - Attach: Unchanged, except an untracked entity whose generated key is
   *    unset, which is Added.
   *  - Update: Modified with every property flagged, except an entity
   *    already tracked as Added, or untracked with an unset key: Added.
   *  - Remove: Deleted, except an entity tracked as Added, which is detached.
   */
  function StagedEntry(current: Option<Entry>, op: StageOp, x: Entity): Option<Entry>
  {
    var wasAdded := current.Some? && current.value.state == Added;
    match op
    case AddOp => Some(Entry(x, Added, {}))
    case AttachOp =>
      Some(Entry(x, if current.None? && !KeySet(x) then Added else Unchanged, {}))
    case UpdateOp =>
      if wasAdded || (current.None? && !KeySet(x)) then Some(Entry(x, Added, {}))
      else Some(Entry(x, Modified, x.properties))
    case RemoveOp =>
      if wasAdded then None else Some(Entry(x, Deleted, {}))
  }

  /** `_dbSet.Add`, `Attach`, `Update` or `Remove` of one entity. */
  function Stage(es: seq<Entry>, op: StageOp, x: Entity): seq<Entry>
  {
    match StagedEntry(Lookup(es, x.ref), op, x)
    case Some(e) => SetEntry(es, e)
    case None => Untrack(es, x.ref)
  }

  /** `AddRange`, `AttachRange`, `UpdateRange` or `RemoveRange`: the entities one after another. */
  function StageRange(es: seq<Entry>, op: StageOp, xs: seq<Entity>): seq<Entry>
    decreases |xs|
  {
    if xs == [] then es else StageRange(Stage(es, op, xs[0]), op, xs[1..])
  }

  /** What staging with `op` promises about the entity's entry afterwards. */
  predicate StagedAs(op: StageOp, e: Option<Entry>)
  {
    match op
    case AddOp => e.Some? && e.value.state == Added
    case AttachOp => e.Some? && (e.value.state == Unchanged || e.value.state == Added)
    case UpdateOp => e.Some? && (e.value.state == Modified || e.value.state == Added)
    case RemoveOp => e.None? || e.value.state == Deleted
  }

  /**
   * `entry.Property(p).IsModified = flag`. Flagging a property of an
   * Unchanged entry makes it Modified; clearing the last flagged property of
   * a Modified entry makes it Unchanged again.
   */
  function SetPropertyModified(e: Entry, p: PropertyName, flag: bool): Entry
  {
    if flag then
      e.(modified := e.modified + {p}, state := if e.state == Unchanged then Modified else e.state)
    else
      var m := e.modified - {p};
      e.(modified := m, state := if e.state == Modified && m == {} then Unchanged else e.state)
  }

  /** The key property every entity inherits from `BaseEntity<int>`. */
  const KeyProperty: PropertyName := "Id"

  /**
   * Whether `entry.Property(p).IsModified = flag` is accepted: a mapped
   * non-key property may be flagged and cleared; the key may be cleared
   * (it is never flagged) but marking it modified throws; any other name
   * throws.
   */
  predicate Settable(x: Entity, p: PropertyName, flag: bool)
  {
    if p == KeyProperty then !flag else p in x.properties
  }

  /**
   * Sets `IsModified = flag` for each named property in turn. A name that is
   * not Settable makes the framework throw: the result then holds the entry
   * as the earlier names left it, and that name.
   */
  function MarkProperties(e: Entry, props: seq<PropertyName>, flag: bool): (r: (Entry, Option<PropertyName>))
    decreases |props|
  {
    if props == [] then (e, None)
    else
      var before := MarkProperties(e, props[..|props| - 1], flag);
      var last := props[|props| - 1];
      if before.1.Some? then before
      else if !Settable(e.entity, last, flag) then (before.0, Some(last))
      else (SetPropertyModified(before.0, last, flag), None)
  }

  /**
   * What a successful store commit does to the tracker: Deleted entries are
   * no longer tracked, every other entry becomes Unchanged with no property
   * flagged.
   */
  function AcceptAllChanges(es: seq<Entry>): (r: seq<Entry>)
    ensures |r| <= |es|
    ensures forall e :: e in r ==> e.state == Unchanged && e.modified == {}
    ensures forall e :: e in r ==> exists d :: d in es && d.entity == e.entity && d.state != Deleted
    decreases |es|
  {
    if es == [] then []
    else
      var rest := AcceptAllChanges(es[1..]);
      if es[0].state == Deleted then rest
      else [es[0].(state := Unchanged, modified := {})] + rest
  }

  // ---------------------------------------------------------------- lemmas

  /** Looking up in a tracker that starts with `e`. */
  lemma LookupCons(e: Entry, rest: seq<Entry>, ref: EntityRef)
    ensures Lookup([e] + rest, ref) == if e.entity.ref == ref then Some(e) else Lookup(rest, ref)
  {
    assert ([e] + rest)[1..] == rest;
  }

  /** In a tracker with one entry per instance, the entry of `ref` is the one entry with that reference. */
  lemma LookupUnique(es: seq<Entry>, e: Entry)
    requires DistinctRefs(es)
    requires e in es
    ensures Lookup(es, e.entity.ref) == Some(e)
  {
    var i :| 0 <= i < |es| && es[i] == e;
    var k := IndexOf(es, e.entity.ref).value;
    assert !(k < i) && !(i < k);
  }

  /** The first entry with reference `ref` is the one `IndexOf` finds. */
  lemma IndexOfFirst(es: seq<Entry>, ref: EntityRef, k: nat)
    requires k < |es| && es[k].entity.ref == ref
    requires forall j :: 0 <= j < k ==> es[j].entity.ref != ref
    ensures IndexOf(es, ref) == Some(k)
  {
    var v := IndexOf(es, ref).value;
    assert !(v < k) && !(k < v);
  }

  /** `SetEntry` changes the entry of `e`'s instance and no other. */
  lemma LookupSetEntry(es: seq<Entry>, e: Entry, ref: EntityRef)
    ensures Lookup(SetEntry(es, e), ref) == if ref == e.entity.ref then Some(e) else Lookup(es, ref)
  {
    var r := SetEntry(es, e);
    match IndexOf(es, e.entity.ref) {
      case Some(i) =>
        if ref == e.entity.ref {
          IndexOfFirst(r, ref, i);
        } else {
          match IndexOf(es, ref) {
            case Some(k) => IndexOfFirst(r, ref, k);
            case None =>
          }
        }
      case None =>
        if ref == e.entity.ref {
          IndexOfFirst(r, ref, |es|);
        } else {
          match IndexOf(es, ref) {
            case Some(k) => IndexOfFirst(r, ref, k);
            case None =>
          }
        }
    }
  }

  /** `Untrack` removes the entry of `ref` and leaves the others (one entry per instance). */
  lemma LookupUntrack(es: seq<Entry>, ref: EntityRef, other: EntityRef)
    requires DistinctRefs(es)
    ensures Lookup(Untrack(es, ref), other) == if other == ref then None else Lookup(es, other)
  {
    match IndexOf(es, ref) {
      case None =>
      case Some(i) =>
        var r := es[..i] + es[i + 1..];
        assert Untrack(es, ref) == r;
        UntrackShape(es, i, r);
        if other == ref {
          forall j | 0 <= j < |r| ensures r[j].entity.ref != ref {
            if j >= i {
              assert r[j] == es[j + 1];
            }
          }
        } else {
          UntrackKeeps(es, i, r, other);
        }
    }
  }

  /** Removing position `i` shifts the later entries down by one. */
  lemma UntrackShape(es: seq<Entry>, i: nat, r: seq<Entry>)
    requires i < |es| && r == es[..i] + es[i + 1..]
    ensures |r| == |es| - 1
    ensures forall j :: 0 <= j < i ==> r[j] == es[j]
    ensures forall j :: i <= j < |r| ==> r[j] == es[j + 1]
  {
  }

  /** Removing the entry at `i` keeps the entry of any other instance. */
  lemma UntrackKeeps(es: seq<Entry>, i: nat, r: seq<Entry>, other: EntityRef)
    requires i < |es| && r == es[..i] + es[i + 1..] && es[i].entity.ref != other
    ensures Lookup(r, other) == Lookup(es, other)
  {
    UntrackShape(es, i, r);
    match IndexOf(es, other) {
      case Some(k) =>
        if k < i {
          IndexOfFirst(r, other, k);
        } else {
          assert r[k - 1] == es[k];
          IndexOfFirst(r, other, k - 1);
        }
      case None =>
        assert forall j :: 0 <= j < |r| ==> r[j].entity.ref != other by {
          forall j | 0 <= j < |r| ensures r[j].entity.ref != other {
            if j >= i {
              assert r[j] == es[j + 1];
            }
          }
        }
    }
  }

  /** Staging one entity changes that entity's entry as StagedEntry says, and no other entry. */
  lemma LookupStage(es: seq<Entry>, op: StageOp, x: Entity, ref: EntityRef)
    requires DistinctRefs(es)
    ensures Lookup(Stage(es, op, x), ref) ==
            if ref == x.ref then StagedEntry(Lookup(es, x.ref), op, x) else Lookup(es, ref)
  {
    match StagedEntry(Lookup(es, x.ref), op, x) {
      case Some(e) => LookupSetEntry(es, e, ref);
      case None => LookupUntrack(es, x.ref, ref);
    }
  }

  /** Whatever the entity's entry was before, staging leaves it as the operation promises. */
  lemma StagedEntryStagedAs(current: Option<Entry>, op: StageOp, x: Entity)
    ensures StagedAs(op, StagedEntry(current, op, x))
    ensures StagedEntry(current, op, x).Some? ==> StagedEntry(current, op, x).value.entity == x
  {
  }

  /** Putting a valid entry in keeps the tracker's invariant. */
  lemma SetEntryPreservesValid(es: seq<Entry>, e: Entry)
    requires TrackerValid(es) && EntryValid(e)
    ensures TrackerValid(SetEntry(es, e))
  {
  }

  /** The position `SetEntry` writes to. */
  function SlotOf(es: seq<Entry>, ref: EntityRef): (k: nat)
    ensures k <= |es|
  {
    match IndexOf(es, ref) case Some(i) => i case None => |es|
  }

  /** `SetEntry` writes `e` at `SlotOf`, and writing there again is the same as a single `SetEntry`. */
  lemma SetEntryAgain(es: seq<Entry>, e: Entry, e': Entry)
    requires e'.entity.ref == e.entity.ref
    ensures SlotOf(es, e.entity.ref) < |SetEntry(es, e)|
    ensures SetEntry(es, e)[SlotOf(es, e.entity.ref)] == e
    ensures SetEntry(es, e)[SlotOf(es, e.entity.ref) := e'] == SetEntry(es, e')
  {
  }

  /** Staging keeps the tracker's invariant. */
  lemma StagePreservesValid(es: seq<Entry>, op: StageOp, x: Entity)
    requires TrackerValid(es)
    ensures TrackerValid(Stage(es, op, x))
  {
    var r := Stage(es, op, x);
    match StagedEntry(Lookup(es, x.ref), op, x) {
      case Some(e) =>
        SetEntryPreservesValid(es, e);
      case None =>
        match IndexOf(es, x.ref) {
          case None =>
          case Some(i) =>
            forall a | 0 <= a < |r| ensures r[a] == es[if a < i then a else a + 1] { }
        }
    }
  }

  /** Staging a range keeps the tracker's invariant. */
  lemma {:induction false} StageRangePreservesValid(es: seq<Entry>, op: StageOp, xs: seq<Entity>)
    requires TrackerValid(es)
    ensures TrackerValid(StageRange(es, op, xs))
    decreases |xs|
  {
    if xs != [] {
      StagePreservesValid(es, op, xs[0]);
      StageRangePreservesValid(Stage(es, op, xs[0]), op, xs[1..]);
    }
  }

  /** Entities not in the range keep their entries. */
  lemma {:induction false} StageRangeUntouched(es: seq<Entry>, op: StageOp, xs: seq<Entity>, ref: EntityRef)
    requires TrackerValid(es)
    requires forall x :: x in xs ==> x.ref != ref
    ensures Lookup(StageRange(es, op, xs), ref) == Lookup(es, ref)
    decreases |xs|
  {
    if xs != [] {
      LookupStage(es, op, xs[0], ref);
      StagePreservesValid(es, op, xs[0]);
      StageRangeUntouched(Stage(es, op, xs[0]), op, xs[1..], ref);
    }
  }

  /**
   * After staging a range, every entity of the range is staged as the
   * operation promises (an entity named twice ends as its last staging
   * leaves it), and every other entry is as before.
   */
  lemma {:induction false} StageRangeStagesAll(es: seq<Entry>, op: StageOp, xs: seq<Entity>)
    requires TrackerValid(es)
    ensures forall x :: x in xs ==> StagedAs(op, Lookup(StageRange(es, op, xs), x.ref))
    decreases |xs|
  {
    if xs != [] {
      var es' := Stage(es, op, xs[0]);
      StagePreservesValid(es, op, xs[0]);
      StageRangeStagesAll(es', op, xs[1..]);
      if forall x :: x in xs[1..] ==> x.ref != xs[0].ref {
        StageRangeUntouched(es', op, xs[1..], xs[0].ref);
        LookupStage(es, op, xs[0], xs[0].ref);
        StagedEntryStagedAs(Lookup(es, xs[0].ref), op, xs[0]);
      } else {
        var y :| y in xs[1..] && y.ref == xs[0].ref;
        assert StagedAs(op, Lookup(StageRange(es', op, xs[1..]), y.ref));
      }
      assert forall x :: x in xs ==> x == xs[0] || x in xs[1..];
    }
  }

  /** Setting `IsModified` keeps the entry valid when the framework accepts it. */
  lemma SetPropertyModifiedValid(e: Entry, p: PropertyName, flag: bool)
    requires EntryValid(e) && Settable(e.entity, p, flag)
    ensures EntryValid(SetPropertyModified(e, p, flag))
    ensures SetPropertyModified(e, p, flag).entity == e.entity
  {
  }

  /**
   * Sparse update: starting from an Unchanged entry with no flags, flagging
   * the named (mapped) properties leaves exactly those flagged, and the entry
   * is Modified exactly when at least one was named.
   */
  lemma {:induction false} MarkSpecialProperties(x: Entity, props: seq<PropertyName>)
    requires forall p :: p in props ==> Settable(x, p, true)
    ensures MarkProperties(Entry(x, Unchanged, {}), props, true) ==
            (Entry(x, if props == [] then Unchanged else Modified, (set p | p in props)), None)
    decreases |props|
  {
    if props != [] {
      var prefix := props[..|props| - 1];
      assert forall p :: p in prefix ==> p in props;
      MarkSpecialProperties(x, prefix);
      var last := props[|props| - 1];
      assert Settable(x, last, true);
      var before := MarkProperties(Entry(x, Unchanged, {}), prefix, true);
      assert MarkProperties(Entry(x, Unchanged, {}), props, true) == (SetPropertyModified(before.0, last, true), None);
      assert (set p | p in props) == (set p | p in prefix) + {last} by {
        assert props == prefix + [last];
      }
      assert SetPropertyModified(before.0, last, true) == Entry(x, Modified, (set p | p in prefix) + {last});
    } else {
      assert (set p | p in props) == {};
    }
  }

  /**
   * Update-except: starting from a Modified entry with every property
   * flagged, clearing the named properties (mapped ones, or the key) leaves
   * exactly the others flagged; the entry stays Modified unless a name
   * cleared the last flag.
   */
  lemma {:induction false} MarkExceptedProperties(x: Entity, props: seq<PropertyName>)
    requires forall p :: p in props ==> Settable(x, p, false)
    ensures var (e, err) := MarkProperties(Entry(x, Modified, x.properties), props, false);
            && err == None
            && e.entity == x
            && e.modified == x.properties - (set p | p in props)
            && e.state == (if props == [] || e.modified != {} then Modified else Unchanged)
    decreases |props|
  {
    if props != [] {
      var prefix := props[..|props| - 1];
      assert forall p :: p in prefix ==> p in props;
      MarkExceptedProperties(x, prefix);
      var last := props[|props| - 1];
      assert Settable(x, last, false);
      var before := MarkProperties(Entry(x, Modified, x.properties), prefix, false);
      assert MarkProperties(Entry(x, Modified, x.properties), props, false) == (SetPropertyModified(before.0, last, false), None);
      assert (set p | p in props) == (set p | p in prefix) + {last} by {
        assert props == prefix + [last];
      }
      assert before.0.modified == x.properties - (set p | p in prefix);
      assert x.properties - (set p | p in props) == (x.properties - (set p | p in prefix)) - {last};
    }
  }

  /**
   * Marking fails exactly when some name is not Settable (an unknown name,
   * or the key marked modified), and then names such a one.
   */
  lemma {:induction false} MarkPropertiesRejects(e: Entry, props: seq<PropertyName>, flag: bool)
    ensures var r := MarkProperties(e, props, flag);
            && (r.1.Some? <==> exists p :: p in props && !Settable(e.entity, p, flag))
            && (r.1.Some? ==> r.1.value in props && !Settable(e.entity, r.1.value, flag))
            && r.0.entity == e.entity
    decreases |props|
  {
    if props != [] {
      var prefix := props[..|props| - 1];
      MarkPropertiesRejects(e, prefix, flag);
      assert props == prefix + [props[|props| - 1]];
      assert forall p :: p in props ==> p in prefix || p == props[|props| - 1];
    }
  }

  /** The key may have its flag cleared but never set. */
  lemma KeyOnlyCleared(e: Entry)
    ensures MarkProperties(e, [KeyProperty], false).1 == None
    ensures MarkProperties(e, [KeyProperty], true) == (e, Some(KeyProperty))
  {
    assert [KeyProperty][..0] == [];
  }

  /** Once a name has been rejected, further names change nothing. */
  lemma {:induction false} MarkPropertiesStopsAtError(e: Entry, props: seq<PropertyName>, more: seq<PropertyName>, flag: bool)
    requires MarkProperties(e, props, flag).1.Some?
    ensures MarkProperties(e, props + more, flag) == MarkProperties(e, props, flag)
    decreases |more|
  {
    if more == [] {
      assert props + more == props;
    } else {
      var shorter := more[..|more| - 1];
      MarkPropertiesStopsAtError(e, props, shorter, flag);
      assert (props + more)[..|props + more| - 1] == props + shorter;
    }
  }

  /** Marking keeps the entry valid: only mapped properties are ever flagged. */
  lemma {:induction false} MarkPropertiesValid(e: Entry, props: seq<PropertyName>, flag: bool)
    requires EntryValid(e)
    ensures EntryValid(MarkProperties(e, props, flag).0)
    ensures MarkProperties(e, props, flag).0.entity == e.entity
    decreases |props|
  {
    if props != [] {
      var prefix := props[..|props| - 1];
      MarkPropertiesValid(e, prefix, flag);
      var (p, err) := MarkProperties(e, prefix, flag);
      if err.None? && Settable(e.entity, props[|props| - 1], flag) {
        SetPropertyModifiedValid(p, props[|props| - 1], flag);
      }
    }
  }

  /** Accepting changes keeps one entry per instance. */
  lemma {:induction false} AcceptAllChangesValid(es: seq<Entry>)
    requires TrackerValid(es)
    ensures TrackerValid(AcceptAllChanges(es))
    decreases |es|
  {
    if es != [] {
      var rest := AcceptAllChanges(es[1..]);
      assert TrackerValid(es[1..]);
      AcceptAllChangesValid(es[1..]);
      if es[0].state != Deleted {
        forall x | x in rest ensures x.entity.ref != es[0].entity.ref {
          var d :| d in es[1..] && d.entity == x.entity && d.state != Deleted;
          var k :| 0 <= k < |es[1..]| && es[1..][k] == d;
          assert es[k + 1] == d;
        }
        ValidCons(es[0].(state := Unchanged, modified := {}), rest);
      }
    }
  }

  /** A valid entry for an instance the tracker does not hold yet, put in front of it, keeps it valid. */
  lemma ValidCons(e: Entry, es: seq<Entry>)
    requires TrackerValid(es) && EntryValid(e)
    requires forall x :: x in es ==> x.entity.ref != e.entity.ref
    ensures TrackerValid([e] + es)
  {
    var r := [e] + es;
    assert forall j :: 0 < j < |r| ==> r[j] == es[j - 1];
    forall j | 0 < j < |r| ensures r[j].entity.ref != e.entity.ref {
      assert r[j] in es;
    }
  }

  /**
   * After a successful commit an entity that was Deleted is no longer
   * tracked, and every other tracked entity is Unchanged with its values kept.
   */
  lemma {:induction false} LookupAcceptAllChanges(es: seq<Entry>, ref: EntityRef)
    requires TrackerValid(es)
    ensures Lookup(AcceptAllChanges(es), ref) ==
            match Lookup(es, ref)
            case Some(e) => if e.state == Deleted then None else Some(e.(state := Unchanged, modified := {}))
            case None => None
    decreases |es|
  {
    if es != [] {
      assert es == [es[0]] + es[1..];
      assert TrackerValid(es[1..]);
      LookupCons(es[0], es[1..], ref);
      LookupAcceptAllChanges(es[1..], ref);
      if es[0].entity.ref == ref {
        assert Lookup(es[1..], ref) == None;
        var rest := AcceptAllChanges(es[1..]);
        assert forall e :: e in rest ==> e.entity.ref != ref;
      }
      if es[0].state != Deleted {
        LookupCons(es[0].(state := Unchanged, modified := {}), AcceptAllChanges(es[1..]), ref);
      }
    }
  }
}
