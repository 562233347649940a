/** The undo log of a transaction and what replaying it backwards restores. */
module Undo {
  import opened Records
  import opened StoreModel

  /** A creation keeps the new record; an update or a deletion the record as it was before. */
  datatype LogEntry =
    | ObjectCreated(obj: EngineeringObject)
    | ObjectUpdated(obj: EngineeringObject)
    | ObjectDeleted(obj: EngineeringObject)
    | RelationshipCreated(rel: Relationship)
    | RelationshipUpdated(rel: Relationship)
    | RelationshipDeleted(rel: Relationship)

  /** The mutation logged as e took s to t. */
  ghost predicate Step(s: Stores, e: LogEntry, t: Stores) {
    match e
    case ObjectCreated(o) =>
      InsertObject(s.objects, o) == Change(true, t.objects) && t.relationships == s.relationships
    case ObjectUpdated(o) =>
      && o.id in s.objects && s.objects[o.id] == o && ValidObject(o)
      && (exists n: EngineeringObject, now ::
            n.id == o.id && UpdateObject(s.objects, n, now) == Change(true, t.objects))
      && t.relationships == s.relationships
    case ObjectDeleted(o) =>
      && o.id in s.objects && s.objects[o.id] == o && ValidObject(o)
      && t == s.(objects := s.objects - {o.id})
    case RelationshipCreated(r) =>
      InsertRelationship(s, r) == Change(true, t.relationships) && t.objects == s.objects
    case RelationshipUpdated(r) =>
      && r.id in s.relationships && s.relationships[r.id] == r && ValidRelationship(r)
      && (exists n: Relationship ::
            n.id == r.id && UpdateRelationship(s.relationships, n) == Change(true, t.relationships))
      && t.objects == s.objects
    case RelationshipDeleted(r) =>
      && r.id in s.relationships && s.relationships[r.id] == r && ValidRelationship(r)
      && t == s.(relationships := s.relationships - {r.id})
  }

  /** The states a transaction went through, from begin on, one step for each log entry. */
  ghost predicate History(h: seq<Stores>, log: seq<LogEntry>) {
    && |h| == |log| + 1
    && Keyed(h[0])
    && forall i :: 0 <= i < |log| ==> Step(h[i], log[i], h[i + 1])
  }

  lemma ExtendHistory(h: seq<Stores>, log: seq<LogEntry>, e: LogEntry, t: Stores)
    requires History(h, log) && Step(h[|log|], e, t)
    ensures History(h + [t], log + [e])
  {
    hide Step;
  }

  /** The compensating operation of one entry, at the time now, and whether it succeeds. */
  function Compensate(s: Stores, e: LogEntry, now: string): Change<Stores> {
    match e
    case ObjectCreated(o) =>
      var c := RemoveObject(s.objects, o.id); Change(c.done, s.(objects := c.after))
    case ObjectUpdated(o) =>
      var c := UpdateObject(s.objects, o, now); Change(c.done, s.(objects := c.after))
    case ObjectDeleted(o) =>
      var c := InsertObject(s.objects, o); Change(c.done, s.(objects := c.after))
    case RelationshipCreated(r) =>
      var c := RemoveRelationship(s.relationships, r.id); Change(c.done, s.(relationships := c.after))
    case RelationshipUpdated(r) =>
      var c := UpdateRelationship(s.relationships, r); Change(c.done, s.(relationships := c.after))
    case RelationshipDeleted(r) =>
      var c := InsertRelationship(s, r); Change(c.done, s.(relationships := c.after))
  }

  lemma CompensateKeepsKeys(s: Stores, e: LogEntry)
    requires Keyed(s)
    ensures forall now :: Keyed(Compensate(s, e, now).after)
  {
    hide IsUuid, IsVersion;
  }

  /** Undoing the entries from the last down to entry i, entry k at the time clock[k]; done when all succeed. */
  function UndoFrom(s: Stores, log: seq<LogEntry>, clock: seq<string>, i: nat): Change<Stores>
    requires i <= |log| == |clock|
    decreases |log| - i
  {
    if i == |log| then Change(true, s)
    else
      var rest := UndoFrom(s, log, clock, i + 1);
      var last := Compensate(rest.after, log[i], clock[i]);
      Change(last.done && rest.done, last.after)
  }

  /** The deletion of a relationship one of whose endpoints was already gone. */
  ghost predicate IsOrphanDelete(s: Stores, e: LogEntry) {
    e.RelationshipDeleted? && !EndpointsLoad(s.objects, e.rel)
  }

  ghost predicate NoOrphanDelete(h: seq<Stores>, log: seq<LogEntry>, i: nat)
    requires |h| == |log| + 1
  {
    forall k :: i <= k < |log| ==> !IsOrphanDelete(h[k], log[k])
  }

  predicate DeletesRelationship(e: LogEntry, id: string) {
    e.RelationshipDeleted? && e.rel.id == id
  }

  /** The first deletion of the relationship from entry i on, if there is one, was an orphan deletion. */
  ghost predicate FirstDeleteOrphaned(h: seq<Stores>, log: seq<LogEntry>, i: nat, id: string)
    requires i <= |log| && |h| == |log| + 1
    decreases |log| - i
  {
    && i < |log|
    && if DeletesRelationship(log[i], id) then IsOrphanDelete(h[i], log[i])
       else FirstDeleteOrphaned(h, log, i + 1, id)
  }

  /** The object with identifier id after the undo, when it was o: as before, except for a new modification
      time if the first entry about it is an update. */
  ghost function Refreshed(log: seq<LogEntry>, clock: seq<string>, i: nat, o: EngineeringObject): EngineeringObject
    requires i <= |log| == |clock|
    decreases |log| - i
  {
    if i == |log| || (log[i].ObjectDeleted? && log[i].obj.id == o.id) then o
    else if log[i].ObjectUpdated? && log[i].obj.id == o.id then o.(modified := clock[i])
    else Refreshed(log, clock, i + 1, o)
  }

  /** The objects after the undo are those of state i. */
  ghost predicate ObjectsRestored(h: seq<Stores>, log: seq<LogEntry>, clock: seq<string>, i: nat, after: Objects)
    requires i <= |log| == |clock| && |h| == |log| + 1
  {
    && after.Keys == h[i].objects.Keys
    && forall id :: id in after ==> after[id] == Refreshed(log, clock, i, h[i].objects[id])
  }

  /** The relationships after the undo are those of state i whose first deletion was not an orphan deletion. */
  ghost predicate RelationshipsRestored(h: seq<Stores>, log: seq<LogEntry>, i: nat, after: Relationships)
    requires i <= |log| && |h| == |log| + 1
  {
    && (forall id :: id in after <==> id in h[i].relationships && !FirstDeleteOrphaned(h, log, i, id))
    && (forall id :: id in after ==> after[id] == h[i].relationships[id])
  }

  lemma StepKeepsKeys(s: Stores, e: LogEntry, t: Stores)
    requires Keyed(s) && Step(s, e, t)
    ensures Keyed(t)
  {
  }

  lemma {:induction false} HistoryKeyed(h: seq<Stores>, log: seq<LogEntry>, i: nat)
    requires History(h, log) && i <= |log|
    ensures Keyed(h[i])
  {
    if i > 0 {
      HistoryKeyed(h, log, i - 1);
      StepKeepsKeys(h[i - 1], log[i - 1], h[i]);
    }
  }

  lemma {:induction false} RefreshedSame(log: seq<LogEntry>, clock: seq<string>, i: nat, o: EngineeringObject)
    requires i <= |log| == |clock|
    ensures Refreshed(log, clock, i, o) == o.(modified := Refreshed(log, clock, i, o).modified)
    ensures o.modified != "" && (forall k :: 0 <= k < |clock| ==> clock[k] != "")
            ==> Refreshed(log, clock, i, o).modified != ""
    decreases |log| - i
  {
    if i < |log| { RefreshedSame(log, clock, i + 1, o); }
  }

  lemma OtherEntriesIgnored(log: seq<LogEntry>, clock: seq<string>, i: nat, o: EngineeringObject)
    requires i < |log| == |clock|
    requires log[i].ObjectUpdated? || log[i].ObjectDeleted? ==> log[i].obj.id != o.id
    ensures Refreshed(log, clock, i, o) == Refreshed(log, clock, i + 1, o)
  {
  }

  lemma CreationUndone(h: seq<Stores>, log: seq<LogEntry>, clock: seq<string>, i: nat, s: Stores)
    requires History(h, log) && i < |log| == |clock| && log[i].ObjectCreated?
    requires ObjectsRestored(h, log, clock, i + 1, s.objects)
    ensures var c := RemoveObject(s.objects, log[i].obj.id);
            c.done && ObjectsRestored(h, log, clock, i, c.after)
  {
    HistoryKeyed(h, log, i);
    hide ValidObject, Refreshed;
    assert Step(h[i], log[i], h[i + 1]);
    var id := log[i].obj.id;
    forall other | other in h[i].objects
      ensures Refreshed(log, clock, i, h[i].objects[other]) == Refreshed(log, clock, i + 1, h[i + 1].objects[other])
    {
      OtherEntriesIgnored(log, clock, i, h[i].objects[other]);
    }
  }

  lemma DeletionUndone(h: seq<Stores>, log: seq<LogEntry>, clock: seq<string>, i: nat, s: Stores)
    requires History(h, log) && i < |log| == |clock| && log[i].ObjectDeleted?
    requires ObjectsRestored(h, log, clock, i + 1, s.objects)
    ensures var c := InsertObject(s.objects, log[i].obj);
            c.done && ObjectsRestored(h, log, clock, i, c.after)
  {
    HistoryKeyed(h, log, i);
    hide ValidObject, Refreshed;
    assert Step(h[i], log[i], h[i + 1]);
    var o := log[i].obj;
    assert Refreshed(log, clock, i, o) == o by { DeletedIsExact(log, clock, i, o); }
    forall other | other in h[i].objects && other != o.id
      ensures Refreshed(log, clock, i, h[i].objects[other]) == Refreshed(log, clock, i + 1, h[i + 1].objects[other])
    {
      OtherEntriesIgnored(log, clock, i, h[i].objects[other]);
    }
  }

  lemma DeletedIsExact(log: seq<LogEntry>, clock: seq<string>, i: nat, o: EngineeringObject)
    requires i < |log| == |clock| && log[i] == ObjectDeleted(o)
    ensures Refreshed(log, clock, i, o) == o
  {
  }

  lemma UpdateCompensated(h: seq<Stores>, log: seq<LogEntry>, clock: seq<string>, i: nat, m: Objects)
    requires History(h, log) && i < |log| == |clock| && log[i].ObjectUpdated? && clock[i] != ""
    requires ObjectsRestored(h, log, clock, i + 1, m)
    ensures var o := log[i].obj;
            UpdateObject(m, o, clock[i]) == Change(true, m[o.id := o.(modified := clock[i])])
  {
    HistoryKeyed(h, log, i);
    hide IsUuid, IsVersion, Refreshed;
    assert Step(h[i], log[i], h[i + 1]);
    RefreshedSame(log, clock, i + 1, h[i + 1].objects[log[i].obj.id]);
  }

  lemma UpdateUndone(h: seq<Stores>, log: seq<LogEntry>, clock: seq<string>, i: nat, s: Stores)
    requires History(h, log) && i < |log| == |clock| && log[i].ObjectUpdated? && clock[i] != ""
    requires ObjectsRestored(h, log, clock, i + 1, s.objects)
    ensures var c := UpdateObject(s.objects, log[i].obj, clock[i]);
            c.done && ObjectsRestored(h, log, clock, i, c.after)
  {
    UpdateCompensated(h, log, clock, i, s.objects);
    HistoryKeyed(h, log, i);
    hide ValidObject, Refreshed;
    assert Step(h[i], log[i], h[i + 1]);
    var o := log[i].obj;
    assert Refreshed(log, clock, i, o) == o.(modified := clock[i]) by { UpdatedIsRefreshed(log, clock, i, o); }
    forall other | other in h[i].objects && other != o.id
      ensures Refreshed(log, clock, i, h[i].objects[other]) == Refreshed(log, clock, i + 1, h[i + 1].objects[other])
    {
      OtherEntriesIgnored(log, clock, i, h[i].objects[other]);
    }
  }

  lemma UpdatedIsRefreshed(log: seq<LogEntry>, clock: seq<string>, i: nat, o: EngineeringObject)
    requires i < |log| == |clock| && log[i] == ObjectUpdated(o)
    ensures Refreshed(log, clock, i, o) == o.(modified := clock[i])
  {
  }

  lemma RelationshipStepKeepsObjects(h: seq<Stores>, log: seq<LogEntry>, clock: seq<string>, i: nat, after: Objects)
    requires History(h, log) && i < |log| == |clock|
    requires log[i].RelationshipCreated? || log[i].RelationshipUpdated? || log[i].RelationshipDeleted?
    requires ObjectsRestored(h, log, clock, i + 1, after)
    ensures ObjectsRestored(h, log, clock, i, after)
  {
    HistoryKeyed(h, log, i);
    hide ValidObject, ValidRelationship, Refreshed;
    assert Step(h[i], log[i], h[i + 1]);
    forall other | other in h[i].objects
      ensures Refreshed(log, clock, i, h[i].objects[other]) == Refreshed(log, clock, i + 1, h[i + 1].objects[other])
    {
      OtherEntriesIgnored(log, clock, i, h[i].objects[other]);
    }
  }

  ghost predicate IsClock(clock: seq<string>) {
    forall k :: 0 <= k < |clock| ==> clock[k] != ""
  }

  /** The objects of every intermediate state of an undo. */
  lemma {:induction false} ObjectsUndone(h: seq<Stores>, log: seq<LogEntry>, clock: seq<string>, i: nat)
    requires |h| == |log| + 1 && History(h, log) && i <= |log| == |clock| && IsClock(clock)
    ensures ObjectsRestored(h, log, clock, i, UndoFrom(h[|log|], log, clock, i).after.objects)
    ensures i < |log| && (log[i].ObjectCreated? || log[i].ObjectUpdated? || log[i].ObjectDeleted?)
            ==> Compensate(UndoFrom(h[|log|], log, clock, i + 1).after, log[i], clock[i]).done
    decreases |log| - i
  {
    hide History, Step, ObjectsRestored, InsertObject, UpdateObject, RemoveObject, Refreshed;
    if i == |log| {
      NothingUndone(h, log, clock);
    } else {
      ObjectsUndone(h, log, clock, i + 1);
      var s := UndoFrom(h[|log|], log, clock, i + 1).after;
      match log[i] {
        case ObjectCreated(_) => CreationUndone(h, log, clock, i, s);
        case ObjectUpdated(_) => UpdateUndone(h, log, clock, i, s);
        case ObjectDeleted(_) => DeletionUndone(h, log, clock, i, s);
        case _ => RelationshipStepKeepsObjects(h, log, clock, i, s.objects);
      }
    }
  }

  lemma NothingUndone(h: seq<Stores>, log: seq<LogEntry>, clock: seq<string>)
    requires History(h, log) && |log| == |clock|
    ensures ObjectsRestored(h, log, clock, |log|, h[|log|].objects)
  {
    HistoryKeyed(h, log, |log|);
  }

  /** Only an object that was loaded, and so is valid, gets a new modification time. */
  lemma {:induction false} RefreshedWasValid(h: seq<Stores>, log: seq<LogEntry>, clock: seq<string>, i: nat, id: string)
    requires History(h, log) && i <= |log| == |clock| && id in h[i].objects
    ensures Refreshed(log, clock, i, h[i].objects[id]) == h[i].objects[id] || ValidObject(h[i].objects[id])
    decreases |log| - i
  {
    hide ValidObject, ValidRelationship, EndpointsLoad;
    if i < |log| {
      HistoryKeyed(h, log, i);
      assert Step(h[i], log[i], h[i + 1]);
      var o := h[i].objects[id];
      if !((log[i].ObjectDeleted? || log[i].ObjectUpdated?) && log[i].obj.id == id) {
        RefreshedWasValid(h, log, clock, i + 1, id);
        OtherEntriesIgnored(log, clock, i, o);
      }
    }
  }

  lemma RestoredObjectsLoad(h: seq<Stores>, log: seq<LogEntry>, clock: seq<string>, i: nat, after: Objects, id: string)
    requires History(h, log) && i <= |log| == |clock| && IsClock(clock)
    requires ObjectsRestored(h, log, clock, i, after)
    ensures Loads(after, id) <==> Loads(h[i].objects, id)
  {
    HistoryKeyed(h, log, i);
    hide Refreshed, IsUuid, IsVersion;
    if id in after {
      RefreshedSame(log, clock, i, h[i].objects[id]);
      RefreshedWasValid(h, log, clock, i, id);
    }
  }

  lemma {:induction false} NoOrphanNoLoss(h: seq<Stores>, log: seq<LogEntry>, i: nat, id: string)
    requires i <= |log| && |h| == |log| + 1 && NoOrphanDelete(h, log, i)
    ensures !FirstDeleteOrphaned(h, log, i, id)
    decreases |log| - i
  {
    if i < |log| { NoOrphanNoLoss(h, log, i + 1, id); }
  }

  lemma OtherDeletesIgnored(h: seq<Stores>, log: seq<LogEntry>, i: nat, id: string)
    requires |h| == |log| + 1 && i < |log| && !DeletesRelationship(log[i], id)
    ensures FirstDeleteOrphaned(h, log, i, id) == FirstDeleteOrphaned(h, log, i + 1, id)
  {
  }

  lemma DeleteDecides(h: seq<Stores>, log: seq<LogEntry>, i: nat)
    requires |h| == |log| + 1 && i < |log| && log[i].RelationshipDeleted?
    ensures FirstDeleteOrphaned(h, log, i, log[i].rel.id) == IsOrphanDelete(h[i], log[i])
  {
  }

  lemma ObjectStepKeepsRelationships(h: seq<Stores>, log: seq<LogEntry>, i: nat, after: Relationships)
    requires History(h, log) && i < |log|
    requires log[i].ObjectCreated? || log[i].ObjectUpdated? || log[i].ObjectDeleted?
    requires RelationshipsRestored(h, log, i + 1, after)
    ensures RelationshipsRestored(h, log, i, after)
  {
    assert Step(h[i], log[i], h[i + 1]);
  }

  lemma RelationshipCreationUndone(h: seq<Stores>, log: seq<LogEntry>, i: nat, after: Relationships)
    requires History(h, log) && i < |log| && log[i].RelationshipCreated?
    requires RelationshipsRestored(h, log, i + 1, after)
    ensures var c := RemoveRelationship(after, log[i].rel.id);
            && RelationshipsRestored(h, log, i, c.after)
            && (c.done <==> !FirstDeleteOrphaned(h, log, i + 1, log[i].rel.id))
  {
    hide ValidRelationship, EndpointsLoad;
    assert Step(h[i], log[i], h[i + 1]);
  }

  lemma RelationshipUpdateCompensated(h: seq<Stores>, log: seq<LogEntry>, i: nat, after: Relationships)
    requires History(h, log) && i < |log| && log[i].RelationshipUpdated?
    requires RelationshipsRestored(h, log, i + 1, after)
    ensures var r := log[i].rel;
            UpdateRelationship(after, r) == if r.id in after then Change(true, after[r.id := r]) else Change(false, after)
  {
    HistoryKeyed(h, log, i);
    hide IsUuid, FirstDeleteOrphaned, InsertRelationship;
    assert Step(h[i], log[i], h[i + 1]);
    var r := log[i].rel;
    if r.id in after {
      assert MergeRelationship(after[r.id], r) == r;
    }
  }

  lemma RelationshipUpdateUndone(h: seq<Stores>, log: seq<LogEntry>, i: nat, after: Relationships)
    requires History(h, log) && i < |log| && log[i].RelationshipUpdated?
    requires RelationshipsRestored(h, log, i + 1, after)
    ensures var c := UpdateRelationship(after, log[i].rel);
            && RelationshipsRestored(h, log, i, c.after)
            && (c.done <==> !FirstDeleteOrphaned(h, log, i + 1, log[i].rel.id))
  {
    RelationshipUpdateCompensated(h, log, i, after);
    hide ValidRelationship, FirstDeleteOrphaned, InsertRelationship, MergeRelationship;
    assert Step(h[i], log[i], h[i + 1]);
    forall id ensures FirstDeleteOrphaned(h, log, i, id) == FirstDeleteOrphaned(h, log, i + 1, id) {
      OtherDeletesIgnored(h, log, i, id);
    }
  }

  /** When the undo reaches a deletion, an endpoint is gone if it was gone at the time. */
  lemma EndpointsAtUndo(h: seq<Stores>, log: seq<LogEntry>, clock: seq<string>, i: nat, after: Objects)
    requires History(h, log) && i < |log| == |clock| && log[i].RelationshipDeleted? && IsClock(clock)
    requires ObjectsRestored(h, log, clock, i + 1, after)
    ensures EndpointsLoad(after, log[i].rel) <==> !IsOrphanDelete(h[i], log[i])
  {
    hide Loads, ObjectsRestored;
    RestoredObjectsLoad(h, log, clock, i + 1, after, log[i].rel.source);
    RestoredObjectsLoad(h, log, clock, i + 1, after, log[i].rel.target);
    assert Step(h[i], log[i], h[i + 1]);
  }

  lemma RelationshipDeletionUndone(h: seq<Stores>, log: seq<LogEntry>, i: nat, s: Stores)
    requires History(h, log) && i < |log| && log[i].RelationshipDeleted?
    requires EndpointsLoad(s.objects, log[i].rel) <==> !IsOrphanDelete(h[i], log[i])
    requires RelationshipsRestored(h, log, i + 1, s.relationships)
    ensures var c := InsertRelationship(s, log[i].rel);
            && RelationshipsRestored(h, log, i, c.after)
            && (c.done <==> !IsOrphanDelete(h[i], log[i]))
  {
    HistoryKeyed(h, log, i);
    hide EndpointsLoad, ValidRelationship, FirstDeleteOrphaned, UpdateRelationship, IsOrphanDelete;
    assert Step(h[i], log[i], h[i + 1]);
    var r := log[i].rel;
    forall id | id != r.id ensures FirstDeleteOrphaned(h, log, i, id) == FirstDeleteOrphaned(h, log, i + 1, id) {
      OtherDeletesIgnored(h, log, i, id);
    }
    DeleteDecides(h, log, i);
  }

  /** The relationships of every intermediate state of an undo, and whether all went well so far. */
  lemma {:induction false} RelationshipsUndone(h: seq<Stores>, log: seq<LogEntry>, clock: seq<string>, i: nat)
    requires |h| == |log| + 1 && History(h, log) && i <= |log| == |clock| && IsClock(clock)
    ensures RelationshipsRestored(h, log, i, UndoFrom(h[|log|], log, clock, i).after.relationships)
    ensures UndoFrom(h[|log|], log, clock, i).done <==> NoOrphanDelete(h, log, i)
    decreases |log| - i
  {
    hide History, Step, ObjectsRestored, RelationshipsRestored, InsertObject, UpdateObject, RemoveObject,
         InsertRelationship, UpdateRelationship, RemoveRelationship, FirstDeleteOrphaned, EndpointsLoad;
    if i == |log| {
      assert RelationshipsRestored(h, log, i, h[i].relationships) by { NothingLost(h, log); }
    } else {
      ObjectsUndone(h, log, clock, i);
      ObjectsUndone(h, log, clock, i + 1);
      RelationshipsUndone(h, log, clock, i + 1);
      var s := UndoFrom(h[|log|], log, clock, i + 1).after;
      match log[i] {
        case RelationshipCreated(_) => RelationshipCreationUndone(h, log, i, s.relationships);
        case RelationshipUpdated(_) => RelationshipUpdateUndone(h, log, i, s.relationships);
        case RelationshipDeleted(_) =>
          EndpointsAtUndo(h, log, clock, i, s.objects);
          RelationshipDeletionUndone(h, log, i, s);
        case _ => ObjectStepKeepsRelationships(h, log, i, s.relationships);
      }
      if NoOrphanDelete(h, log, i) && !log[i].ObjectCreated? && !log[i].ObjectUpdated? && !log[i].ObjectDeleted? {
        NoOrphanNoLoss(h, log, i + 1, log[i].rel.id);
      }
    }
  }

  lemma NothingLost(h: seq<Stores>, log: seq<LogEntry>)
    requires |h| == |log| + 1
    ensures RelationshipsRestored(h, log, |log|, h[|log|].relationships)
  {
  }

  /** What rolling back a whole transaction leaves, whatever it did: every object as it was, up to a new
      modification time on those it updated first; every relationship that was there except those it first
      deleted when an endpoint was gone. The rollback is complete exactly when no deletion was of that kind. */
  ghost predicate RolledBack(h: seq<Stores>, log: seq<LogEntry>, clock: seq<string>, after: Change<Stores>)
    requires |h| == |log| + 1 && |clock| == |log|
  {
    && ObjectsRestored(h, log, clock, 0, after.after.objects)
    && RelationshipsRestored(h, log, 0, after.after.relationships)
    && (after.done <==> NoOrphanDelete(h, log, 0))
    && Keyed(after.after)
  }

  lemma Rollback(h: seq<Stores>, log: seq<LogEntry>, clock: seq<string>)
    requires |h| == |log| + 1 && History(h, log) && |clock| == |log| && IsClock(clock)
    ensures RolledBack(h, log, clock, UndoFrom(h[|log|], log, clock, 0))
  {
    hide IsUuid, IsVersion, UndoFrom, FirstDeleteOrphaned, Refreshed, NoOrphanDelete;
    ObjectsUndone(h, log, clock, 0);
    RelationshipsUndone(h, log, clock, 0);
    var after := UndoFrom(h[|log|], log, clock, 0).after;
    forall id | id in after.objects ensures after.objects[id].id == id {
      RefreshedSame(log, clock, 0, h[0].objects[id]);
    }
  }

  /** A transaction without orphan deletions and updates of objects leaves no trace at all. */
  lemma RollbackExact(h: seq<Stores>, log: seq<LogEntry>, clock: seq<string>, after: Change<Stores>)
    requires |h| == |log| + 1 && |clock| == |log| && RolledBack(h, log, clock, after)
    requires NoOrphanDelete(h, log, 0) && forall k :: 0 <= k < |log| ==> !log[k].ObjectUpdated?
    ensures after == Change(true, h[0])
  {
    hide FirstDeleteOrphaned, Refreshed, NoOrphanDelete;
    forall id | id in h[0].objects ensures after.after.objects[id] == h[0].objects[id] {
      NeverUpdatedIsExact(log, clock, 0, h[0].objects[id]);
    }
    forall id | id in h[0].relationships ensures id in after.after.relationships {
      NoOrphanNoLoss(h, log, 0, id);
    }
    assert after.after.objects == h[0].objects && after.after.relationships == h[0].relationships;
  }

  /** after is what a rollback at some times leaves. */
  ghost predicate IsRollback(h: seq<Stores>, log: seq<LogEntry>, after: Change<Stores>) {
    |h| == |log| + 1 && exists clock :: |clock| == |log| && IsClock(clock) && RolledBack(h, log, clock, after)
  }

  /** after is what replaying the log backwards at some times makes of s, whatever s is. */
  ghost predicate IsUndo(s: Stores, log: seq<LogEntry>, after: Change<Stores>) {
    exists clock :: |clock| == |log| && IsClock(clock) && UndoFrom(s, log, clock, 0) == after
  }

  /** Replaying the log is a rollback when the log accounts for everything that happened. */
  lemma UndoIsRollback(h: seq<Stores>, log: seq<LogEntry>, after: Change<Stores>)
    requires |h| == |log| + 1 && History(h, log) && IsUndo(h[|log|], log, after)
    ensures IsRollback(h, log, after)
  {
    hide History, UndoFrom, RolledBack;
    var clock :| |clock| == |log| && IsClock(clock) && UndoFrom(h[|log|], log, clock, 0) == after;
    Rollback(h, log, clock);
  }

  ghost predicate MentionsObject(log: seq<LogEntry>, id: string) {
    exists k :: 0 <= k < |log| && (log[k].ObjectCreated? || log[k].ObjectUpdated? || log[k].ObjectDeleted?)
                && log[k].obj.id == id
  }

  ghost predicate MentionsRelationship(log: seq<LogEntry>, id: string) {
    exists k :: 0 <= k < |log|
                && (log[k].RelationshipCreated? || log[k].RelationshipUpdated? || log[k].RelationshipDeleted?)
                && log[k].rel.id == id
  }

  /** b has what a has outside the identifiers. */
  ghost predicate AgreeOutside(a: Stores, b: Stores, log: seq<LogEntry>) {
    && (forall id :: !MentionsObject(log, id) ==>
          (id in a.objects <==> id in b.objects) && (id in a.objects ==> a.objects[id] == b.objects[id]))
    && (forall id :: !MentionsRelationship(log, id) ==>
          && (id in a.relationships <==> id in b.relationships)
          && (id in a.relationships ==> a.relationships[id] == b.relationships[id]))
  }

  /** Whatever was written past the log stays as it is: an undo changes no record that the log does not mention. */
  lemma UndoKeepsUnlogged(s: Stores, log: seq<LogEntry>, after: Change<Stores>)
    requires IsUndo(s, log, after)
    ensures AgreeOutside(s, after.after, log)
    ensures log == [] ==> after == Change(true, s)
  {
    hide UndoFrom, MentionsObject, MentionsRelationship;
    var clock :| |clock| == |log| && IsClock(clock) && UndoFrom(s, log, clock, 0) == after;
    UndoFromKeepsUnlogged(s, log, clock, 0);
    UndoFromEnd(s, log, clock);
  }

  lemma UndoFromEnd(s: Stores, log: seq<LogEntry>, clock: seq<string>)
    requires |log| == |clock|
    ensures UndoFrom(s, log, clock, |log|) == Change(true, s)
  {
  }

  lemma {:induction false} UndoFromKeepsUnlogged(s: Stores, log: seq<LogEntry>, clock: seq<string>, i: nat)
    requires i <= |log| == |clock|
    ensures AgreeOutside(s, UndoFrom(s, log, clock, i).after, log)
    decreases |log| - i
  {
    hide ValidObject, ValidRelationship, EndpointsLoad, MergeObject, MergeRelationship;
    if i < |log| {
      UndoFromKeepsUnlogged(s, log, clock, i + 1);
      CompensateKeepsUnlogged(UndoFrom(s, log, clock, i + 1).after, log, clock[i], i);
    }
  }

  lemma CompensateKeepsUnlogged(s: Stores, log: seq<LogEntry>, now: string, i: nat)
    requires i < |log|
    ensures AgreeOutside(s, Compensate(s, log[i], now).after, log)
  {
    hide ValidObject, ValidRelationship, EndpointsLoad, MergeObject, MergeRelationship;
  }

  /** In particular a transaction that did nothing yet, and one that only created. */
  lemma CreationsLeaveNoTrace(h: seq<Stores>, log: seq<LogEntry>, after: Change<Stores>)
    requires IsRollback(h, log, after)
    requires forall k :: 0 <= k < |log| ==> log[k].ObjectCreated? || log[k].RelationshipCreated?
    ensures after == Change(true, h[0])
  {
    hide RolledBack;
    var clock :| |clock| == |log| && IsClock(clock) && RolledBack(h, log, clock, after);
    RollbackExact(h, log, clock, after);
  }

  lemma {:induction false} NeverUpdatedIsExact(log: seq<LogEntry>, clock: seq<string>, i: nat, o: EngineeringObject)
    requires i <= |log| == |clock|
    requires forall k :: 0 <= k < |log| && log[k].ObjectUpdated? ==> log[k].obj.id != o.id
    ensures Refreshed(log, clock, i, o) == o
    decreases |log| - i
  {
    if i < |log| { NeverUpdatedIsExact(log, clock, i + 1, o); }
  }

  /** The undo from i on depends only on the clock from i on. */
  lemma {:induction false} UndoIgnoresEarlierClock(s: Stores, log: seq<LogEntry>, c: seq<string>, d: seq<string>, i: nat)
    requires i <= |log| == |c| == |d| && forall k :: i <= k < |log| ==> c[k] == d[k]
    ensures UndoFrom(s, log, c, i) == UndoFrom(s, log, d, i)
    decreases |log| - i
  {
    hide Compensate;
    if i < |log| { UndoIgnoresEarlierClock(s, log, c, d, i + 1); }
  }

  /** Deleting an object and then a relationship of it cannot be rolled back: the undo is incomplete, and the
      relationship stays away although the object returns. */
  lemma OrphanDeleteIsLost(s: Stores, r: Relationship, clock: seq<string>)
    requires Keyed(s) && r.id in s.relationships && s.relationships[r.id] == r && ValidRelationship(r)
    requires Loads(s.objects, r.source)
    requires |clock| == 2 && IsClock(clock)
    ensures var gone := s.(objects := s.objects - {r.source});
            var log := [ObjectDeleted(s.objects[r.source]), RelationshipDeleted(r)];
            var end := gone.(relationships := gone.relationships - {r.id});
            var undone := UndoFrom(end, log, clock, 0);
            !undone.done && r.source in undone.after.objects && r.id !in undone.after.relationships
  {
    hide IsUuid, IsVersion, UndoFrom, Refreshed;
    var gone := s.(objects := s.objects - {r.source});
    var log := [ObjectDeleted(s.objects[r.source]), RelationshipDeleted(r)];
    var h := [s, gone, gone.(relationships := gone.relationships - {r.id})];
    Rollback(h, log, clock);
    assert IsOrphanDelete(h[1], log[1]);
    assert FirstDeleteOrphaned(h, log, 1, r.id);
  }

  ghost predicate OnlyCreates(log: seq<LogEntry>) {
    forall k :: 0 <= k < |log| ==> log[k].ObjectCreated? || log[k].RelationshipCreated?
  }
}
