/** The stores of a repository. A directory of JSON files, replaced atomically one at a time, is a map from
    identifier to record here. */
module Stores {
  import opened Records
  import opened StoreModel

  datatype StoreError =
    | InvalidRecord
    | NoSuchRecord(id: string)
    | AlreadyExists(id: string)
    | NoSuchSource(id: string)
    | NoSuchTarget(id: string)

  datatype Result<+T> = Success(value: T) | Failure(error: StoreError)

  class AuditStore {
    var events: map<string, AuditEvent>

    constructor ()
      ensures events == map[]
    {
      events := map[];
    }

    /** Callers ignore a failure, so it is a result like any other. */
    method RecordEvent(kind: AuditEventType, subject: string) returns (r: Result<AuditEvent>)
      modifies this
      ensures Noted(old(events), kind, subject, events)
      ensures r.Success? ==> r.value.id !in old(events) && events == old(events)[r.value.id := r.value]
                             && r.value.kind == kind && r.value.subject == subject && ValidAuditEvent(r.value)
      ensures r.Failure? ==> events == old(events)
      ensures r.Failure? ==> r.error.AlreadyExists? || (subject != "" && !IsUuid(subject))
    {
      hide IsUuid;
      var id := GenerateUuid();
      var now := CurrentTimestamp();
      var event := AuditEvent(id, now, kind, subject, "", "");
      r := Restore(event);
      assert events == AppendEvent(old(events), AuditEvent(id, now, kind, subject, "", ""));
    }

    /** Writes the event as it is. */
    method Restore(event: AuditEvent) returns (r: Result<AuditEvent>)
      modifies this
      ensures r.Success? <==> ValidAuditEvent(event) && event.id !in old(events)
      ensures r.Success? ==> r.value == event
      ensures r.Failure? ==> r.error == if ValidAuditEvent(event) then AlreadyExists(event.id) else InvalidRecord
      ensures events == AppendEvent(old(events), event)
    {
      if !ValidAuditEvent(event) {
        return Failure(InvalidRecord);
      }
      if event.id in events {
        return Failure(AlreadyExists(event.id));
      }
      events := events[event.id := event];
      r := Success(event);
    }
  }

  class ObjectStore {
    const audit: AuditStore
    var records: Objects

    constructor (audit: AuditStore)
      ensures this.audit == audit && records == map[]
    {
      this.audit := audit;
      records := map[];
    }

    /** generated is the identifier that the generator gives if it is asked for one. */
    method Create(given: EngineeringObject, generated: string) returns (r: Result<EngineeringObject>)
      modifies this`records, audit
      ensures r.Success? <==> CreatableObject(given, generated) && NewId(given.id, generated) !in old(records)
      ensures r.Success? ==> FilledObject(given, generated, r.value)
                             && InsertObject(old(records), r.value) == Change(true, records)
                             && Noted(old(audit.events), ObjectCreatedEvent, r.value.id, audit.events)
      ensures r.Failure? ==> records == old(records) && audit.events == old(audit.events)
                             && r.error == if CreatableObject(given, generated)
                                           then AlreadyExists(NewId(given.id, generated)) else InvalidRecord
    {
      hide IsUuid, IsVersion;
      var filled := given;
      if filled.id == "" {
        filled := filled.(id := generated);
      }
      var now := CurrentTimestamp();
      if filled.created == "" {
        filled := filled.(created := now);
      }
      filled := filled.(modified := now);
      if !ValidObject(filled) {
        return Failure(InvalidRecord);
      }
      if filled.id in records {
        return Failure(AlreadyExists(filled.id));
      }
      records := records[filled.id := filled];
      var _ := audit.RecordEvent(ObjectCreatedEvent, filled.id);
      r := Success(filled);
    }

    /** Writes the record as it is, without an audit event. */
    method Restore(o: EngineeringObject) returns (r: Result<EngineeringObject>)
      modifies this`records
      ensures InsertObject(old(records), o) == Change(r.Success?, records)
      ensures r.Success? ==> r.value == o
      ensures r.Failure? ==> r.error == if ValidObject(o) then AlreadyExists(o.id) else InvalidRecord
    {
      if !ValidObject(o) {
        return Failure(InvalidRecord);
      }
      if o.id in records {
        return Failure(AlreadyExists(o.id));
      }
      records := records[o.id := o];
      r := Success(o);
    }

    function Load(id: string): (r: Result<EngineeringObject>)
      reads this
      ensures r.Success? <==> Loads(records, id)
      ensures r.Success? ==> r.value == records[id]
    {
      if id !in records then Failure(NoSuchRecord(id))
      else if !ValidObject(records[id]) then Failure(InvalidRecord)
      else Success(records[id])
    }

    method Update(o: EngineeringObject) returns (ok: bool, ghost now: string)
      modifies this`records, audit
      ensures now != "" && UpdateObject(old(records), o, now) == Change(ok, records)
      ensures ok ==> o.id in old(records)
                     && records == old(records)[o.id := o.(kind := old(records)[o.id].kind,
                                                           created := old(records)[o.id].created, modified := now)]
      ensures !ok ==> records == old(records) && audit.events == old(audit.events)
      ensures ok ==> Noted(old(audit.events), ObjectUpdatedEvent, o.id, audit.events)
    {
      var time := CurrentTimestamp();
      now := time;
      if o.id !in records {
        return false, now;
      }
      var existing := records[o.id];
      var merged := o.(kind := existing.kind);
      merged := merged.(created := existing.created);
      merged := merged.(modified := time);
      if !ValidObject(merged) {
        return false, now;
      }
      records := records[o.id := merged];
      var _ := audit.RecordEvent(ObjectUpdatedEvent, o.id);
      ok := true;
    }

    method Remove(id: string) returns (ok: bool)
      modifies this`records, audit
      ensures RemoveObject(old(records), id) == Change(ok, records)
      ensures !ok ==> records == old(records) && audit.events == old(audit.events)
      ensures ok ==> Noted(old(audit.events), ObjectDeletedEvent, id, audit.events)
    {
      if id !in records {
        return false;
      }
      records := records - {id};
      var _ := audit.RecordEvent(ObjectDeletedEvent, id);
      ok := true;
    }
  }

  class RelationshipStore {
    const objects: ObjectStore
    const audit: AuditStore
    var records: Relationships

    constructor (objects: ObjectStore, audit: AuditStore)
      ensures this.objects == objects && this.audit == audit && records == map[]
    {
      this.objects := objects;
      this.audit := audit;
      records := map[];
    }

    ghost function Contents(): Stores
      reads this, objects
    {
      Stores(objects.records, records)
    }

    method Create(given: Relationship, generated: string) returns (r: Result<Relationship>)
      modifies this`records, audit
      ensures r.Success? <==> CreatableRelationship(given, generated) && EndpointsLoad(old(objects.records), given)
                              && NewId(given.id, generated) !in old(records)
      ensures r.Success? ==> FilledRelationship(given, generated, r.value)
                             && InsertRelationship(old(Contents()), r.value) == Change(true, records)
                             && Noted(old(audit.events), RelationshipCreatedEvent, r.value.id, audit.events)
      ensures r.Failure? ==> records == old(records) && audit.events == old(audit.events)
    {
      hide IsUuid;
      var relationship := given;
      if relationship.id == "" {
        relationship := relationship.(id := generated);
      }
      if relationship.created == "" {
        var now := CurrentTimestamp();
        relationship := relationship.(created := now);
      }
      r := Restore(relationship);
      if r.Success? {
        var _ := audit.RecordEvent(RelationshipCreatedEvent, relationship.id);
      }
    }

    /** Why a relationship that cannot be stored cannot. */
    ghost function Refusal(r: Relationship): StoreError
      reads objects
    {
      if !ValidRelationship(r) then InvalidRecord
      else if !Loads(objects.records, r.source) then NoSuchSource(r.source)
      else if !Loads(objects.records, r.target) then NoSuchTarget(r.target)
      else AlreadyExists(r.id)
    }

    method Restore(r: Relationship) returns (result: Result<Relationship>)
      modifies this`records
      ensures InsertRelationship(old(Contents()), r) == Change(result.Success?, records)
      ensures result.Success? ==> result.value == r
      ensures result.Failure? ==> result.error == Refusal(r)
    {
      if !ValidRelationship(r) {
        return Failure(InvalidRecord);
      }
      if objects.Load(r.source).Failure? {
        return Failure(NoSuchSource(r.source));
      }
      if objects.Load(r.target).Failure? {
        return Failure(NoSuchTarget(r.target));
      }
      if r.id in records {
        return Failure(AlreadyExists(r.id));
      }
      records := records[r.id := r];
      result := Success(r);
    }

    function Load(id: string): (r: Result<Relationship>)
      reads this
      ensures r.Success? <==> LoadsRelationship(records, id)
      ensures r.Success? ==> r.value == records[id]
    {
      if id !in records then Failure(NoSuchRecord(id))
      else if !ValidRelationship(records[id]) then Failure(InvalidRecord)
      else Success(records[id])
    }

    method Update(r: Relationship) returns (ok: bool)
      modifies this`records, audit
      ensures UpdateRelationship(old(records), r) == Change(ok, records)
      ensures ok ==> r.id in old(records)
                     && records == old(records)[r.id := old(records)[r.id].(id := r.id, author := r.author,
                                                                            description := r.description)]
      ensures !ok ==> records == old(records) && audit.events == old(audit.events)
      ensures ok ==> Noted(old(audit.events), RelationshipUpdatedEvent, r.id, audit.events)
    {
      if r.id !in records {
        return false;
      }
      var existing := records[r.id];
      var merged := r.(source := existing.source, target := existing.target);
      merged := merged.(kind := existing.kind);
      merged := merged.(created := existing.created);
      if !ValidRelationship(merged) {
        return false;
      }
      records := records[r.id := merged];
      var _ := audit.RecordEvent(RelationshipUpdatedEvent, r.id);
      ok := true;
    }

    method Remove(id: string) returns (ok: bool)
      modifies this`records, audit
      ensures RemoveRelationship(old(records), id) == Change(ok, records)
      ensures !ok ==> records == old(records) && audit.events == old(audit.events)
      ensures ok ==> Noted(old(audit.events), RelationshipDeletedEvent, id, audit.events)
    {
      if id !in records {
        return false;
      }
      records := records - {id};
      var _ := audit.RecordEvent(RelationshipDeletedEvent, id);
      ok := true;
    }
  }
}
