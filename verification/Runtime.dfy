/** The runtime: its states, and the transaction engine over the stores, the journal and the registry. */
module Runtime {
  import opened Options
  import opened Records
  import opened Sequences
  import opened StoreModel
  import opened Undo
  import opened Journal
  import opened Transactions
  import opened Installs
  import opened Repositories
  import opened TrustStates
  import Registry
  import B = BatchProcessor
  import S = Stores

  datatype RuntimeState = Uninitialized | Initialized | RepositoryOpen | RepositoryClosed | Shutdown

  datatype ObjectSpec = ObjectSpec(
    kind: ObjectType,
    name: string,
    description: string,
    author: string,
    tags: seq<string>)

  predicate MadeFrom(o: EngineeringObject, spec: ObjectSpec) {
    o == EngineeringObject(o.id, spec.kind, spec.name, spec.description, o.created, o.modified, "1.0.0",
                           spec.author, spec.tags)
  }

  ghost predicate Named(specs: seq<ObjectSpec>) {
    forall i :: 0 <= i < |specs| ==> specs[i].name != ""
  }

  /** The batch has made its first n objects in the transaction of b, object i under the identifier supply[i]. */
  ghost predicate BatchMade(b: Session, specs: seq<ObjectSpec>, supply: seq<string>, n: nat, m: Session)
    requires n <= |specs| == |supply|
  {
    && Creating(b, supply[..n], [], m)
    && |m.log| == |b.log| + n
    && forall i :: 0 <= i < n ==> MadeAs(m.contents.objects, supply[i], specs[i])
                                  && m.log[|b.log| + i] == ObjectCreated(m.contents.objects[supply[i]])
  }

  ghost predicate MadeAs(m: Objects, id: string, spec: ObjectSpec) {
    id in m && m[id].id == id && MadeFrom(m[id], spec)
  }

  lemma BatchMadeMore(b: Session, specs: seq<ObjectSpec>, supply: seq<string>, n: nat, m: Session,
                      o: EngineeringObject, t: Session)
    requires n < |specs| == |supply| && BatchMade(b, specs, supply, n, m) && Logged(m, ObjectCreated(o), t)
    requires o.id == supply[n] && MadeFrom(o, specs[n])
    ensures BatchMade(b, specs, supply, n + 1, t)
  {
    hide Creating, ValidObject, MadeFrom, NewState;
    CreatingMore(b, supply[..n], [], m, ObjectCreated(o), t);
    assert supply[..n + 1] == supply[..n] + [o.id];
  }

  ghost predicate Returns(created: seq<EngineeringObject>, m: Objects, ids: seq<string>) {
    |created| == |ids| && forall i :: 0 <= i < |ids| ==> ids[i] in m && created[i] == m[ids[i]]
  }

  /** Which item of a batch is the first to be refused; all are made exactly if this is none. */
  ghost predicate RefusedAt(m: Objects, specs: seq<ObjectSpec>, supply: seq<string>, index: int)
    requires -1 <= index < |specs| == |supply|
  {
    if index == -1 then Named(specs) && Fresh(m, supply)
    else
      && Named(specs[..index]) && Fresh(m, supply[..index])
      && (specs[index].name == "" || supply[index] in m || supply[index] in supply[..index])
  }

  lemma BatchStarts(b: Session, specs: seq<ObjectSpec>, supply: seq<string>)
    requires |specs| == |supply|
    ensures BatchMade(b, specs, supply, 0, b)
  {
    CreatingNothing(b);
    assert supply[..0] == [];
  }

  lemma BatchFresh(b: Session, specs: seq<ObjectSpec>, supply: seq<string>, m: Session)
    requires |specs| == |supply| && BatchMade(b, specs, supply, |specs|, m)
    ensures Fresh(b.contents.objects, supply)
  {
    hide MadeAs;
    assert supply[..|specs|] == supply;
  }

  lemma BatchRecords(b: Session, specs: seq<ObjectSpec>, supply: seq<string>, m: Session)
    requires |specs| == |supply| && BatchMade(b, specs, supply, |specs|, m)
    ensures m.records == b.records
  {
  }

  lemma BatchTaken(b: Session, specs: seq<ObjectSpec>, supply: seq<string>, n: nat, m: Session)
    requires n < |specs| == |supply| && BatchMade(b, specs, supply, n, m)
    ensures supply[n] in m.contents.objects <==> supply[n] in b.contents.objects || supply[n] in supply[..n]
    ensures Fresh(b.contents.objects, supply[..n])
  {
    hide MadeFrom;
  }

  /** An item failed: what the batch had made was rolled back with everything since the transaction began. */
  ghost predicate BatchUndone(b: Session, specs: seq<ObjectSpec>, supply: seq<string>, n: nat, t: Session)
    requires n <= |specs| == |supply|
  {
    exists m :: BatchMade(b, specs, supply, n, m) && Consistent(m) && Undone(m, t)
  }

  function Creations(m: Objects, ids: seq<string>): seq<LogEntry>
    requires forall id :: id in ids ==> id in m
  {
    seq(|ids|, i requires 0 <= i < |ids| => ObjectCreated(m[ids[i]]))
  }

  /** The batch was a committed transaction of its own. */
  ghost predicate BatchCommitted(s: Session, specs: seq<ObjectSpec>, supply: seq<string>, t: Session)
    requires |specs| == |supply|
  {
    && Extends(s.contents.objects, supply, t.contents.objects) && t.contents.relationships == s.contents.relationships
    && (forall i :: 0 <= i < |specs| ==> MadeAs(t.contents.objects, supply[i], specs[i]))
    && ClosedOne(s, Committed, Creations(t.contents.objects, supply), t)
  }

  lemma BatchCommits(s: Session, description: string, b: Session, specs: seq<ObjectSpec>, supply: seq<string>,
                     m: Session, t: Session)
    requires |specs| == |supply| && Begun(s, description, b) && BatchMade(b, specs, supply, |specs|, m)
    requires Consistent(m) && CommittedTo(m, t)
    ensures BatchCommitted(s, specs, supply, t)
  {
    hide MadeAs, Keyed, KeyedEvents, History;
    assert supply[..|specs|] == supply;
    assert m.contents.relationships == b.contents.relationships;
    forall i | 0 <= i < |specs| ensures m.log[i] == ObjectCreated(m.contents.objects[supply[i]]) {
      assert m.log[|b.log| + i] == m.log[i];
    }
    assert m.log == Creations(m.contents.objects, supply);
  }

  /** The batch failed as a transaction of its own and left no trace in the stores. */
  ghost predicate BatchVanished(s: Session, t: Session) {
    t.contents == s.contents && exists log :: OnlyCreates(log) && ClosedOne(s, RolledBackState, log, t)
  }

  lemma BatchVanishes(s: Session, description: string, b: Session, specs: seq<ObjectSpec>, supply: seq<string>, n: nat,
                      t: Session)
    requires n <= |specs| == |supply| && !s.active && Begun(s, description, b) && BatchUndone(b, specs, supply, n, t)
    ensures BatchVanished(s, t)
  {
    hide Undone, Creating, Consistent;
    var m :| BatchMade(b, specs, supply, n, m) && Consistent(m) && Undone(m, t);
    CreationsUndone(s, b, supply[..n], [], m, t);
  }

  /** The identifiers that load. */
  function LoadableObjects(m: Objects): set<string> {
    set id | id in m && Loads(m, id)
  }

  function LoadableRelationships(m: Relationships): set<string> {
    set id | id in m && LoadsRelationship(m, id)
  }

  /** Those of the identifiers that are there, in order. */
  ghost function Present(ids: seq<string>, there: set<string>): seq<string> {
    if ids == [] then []
    else Present(ids[..|ids| - 1], there) + if ids[|ids| - 1] in there then [ids[|ids| - 1]] else []
  }

  lemma NonePresent(there: set<string>)
    ensures Present([], there) == []
  {
  }

  lemma PresentStep(ids: seq<string>, i: nat, there: set<string>)
    requires i < |ids|
    ensures Present(ids[..i + 1], there) == Present(ids[..i], there) + if ids[i] in there then [ids[i]] else []
  {
    assert ids[..i + 1][..i] == ids[..i];
  }

  lemma {:induction false} AllPresent(ids: seq<string>, there: set<string>)
    ensures |Present(ids, there)| <= |ids|
    ensures |Present(ids, there)| == |ids| <==> forall id :: id in ids ==> id in there
  {
    if ids != [] {
      AllPresent(ids[..|ids| - 1], there);
      assert ids == ids[..|ids| - 1] + [ids[|ids| - 1]];
    }
  }

  class FoundationRuntime {
    var state: RuntimeState
    var repository: Repository?
    var active: bool
    var log: seq<LogEntry>
    var current: TransactionRecord
    /** The contents of the stores since the active transaction began, one for each log entry and one more. */
    ghost var history: seq<Stores>
    /** Something was written past the log since the active transaction began. */
    ghost var bypassed: bool
    /** The identifiers of all transactions ever begun, and the records with which they were closed. */
    ghost var begun: seq<string>
    ghost var closed: seq<TransactionRecord>

    constructor ()
      ensures Valid() && state == Uninitialized && begun == [] && closed == []
    {
      state := Uninitialized;
      repository := null;
      active := false;
      log := [];
      current := TransactionRecord("", Opened, "", "", "", []);
      history, bypassed, begun, closed := [], false, [], [];
    }

    ghost function Parts(): set<object>
      reads this
    {
      if repository == null then {} else repository.Parts()
    }

    /** The runtime together with a repository. */
    ghost function At(root: Repository): Session
      reads this, root.Parts()
    {
      Session(active, log, current, history, bypassed, begun, closed, root.Contents(), root.audit.events,
              root.registry.entries, root.journal.records)
    }

    ghost function Now(): Session
      requires repository != null
      reads this, Parts()
    {
      At(repository)
    }

    ghost predicate Valid()
      reads this, Parts()
    {
      && (state == RepositoryOpen <==> repository != null)
      && if repository == null then !active && log == [] && ClosedOnce(begun, closed, None)
         else repository.Valid() && Consistent(Now())
    }

    method OpenTransactionInternal(description: string)
      requires Valid() && repository != null && !active
      modifies this`active, this`log, this`current, this`history, this`bypassed, this`begun
      ensures Valid() && Begun(old(Now()), description, Now())
    {
      hide ClosedOnce, Keyed, KeyedEvents, IsUuid;
      ghost var s := Now();
      active := true;
      log := [];
      var id := GenerateUuid();
      assert id != "" by { UuidNotEmpty(id); }
      var now := CurrentTimestamp();
      current := TransactionRecord(id, Opened, description, now, "", []);
      history, bypassed := [repository.Contents()], false;
      begun := begun + [id];
      BegunConsistent(s, description, Now());
    }

    method JournalOperation(operation: string, target: string, previousState: string, newState: string)
      modifies this`current
      ensures if active then Appended(old(current), operation, target, previousState, newState, current)
              else current == old(current)
    {
      if !active {
        return;
      }
      var now := CurrentTimestamp();
      current := current.(entries := current.entries + [JournalEntry(now, operation, target, previousState, newState)]);
      assert current == old(current).(entries := old(current).entries
                                                 + [JournalEntry(now, operation, target, previousState, newState)]);
    }

    /** The session is that of b after a mutation of the stores that is to be logged as e. */
    ghost predicate Unlogged(b: Session, e: LogEntry)
      reads this, Parts()
    {
      && state == RepositoryOpen && repository != null && repository.Wired() && repository.registry.Valid()
      && Consistent(b) && b.active && Now() == b.(contents := Now().contents, events := Now().events)
      && Step(b.contents, e, Now().contents) && Grew(b.events, Now().events) && KeyedEvents(Now().events)
    }

    /** The two steps that follow a successful mutation. */
    method LogMutation(e: LogEntry, previousState: string, newState: string, ghost b: Session)
      requires Unlogged(b, e) && previousState == PreviousState(e) && newState == NewState(e, Now().contents)
      modifies this`log, this`current, this`history
      ensures Valid() && Logged(b, e, Now())
    {
      hide Step, Consistent, Keyed, KeyedEvents, PreviousState, NewState;
      log := log + [e];
      history := history + [repository.Contents()];
      JournalOperation(Operation(e), Target(e), previousState, newState);
      LoggedConsistent(b, e, Now());
      assert Keyed(Now().contents) by { ConsistentKeyed(Now()); }
    }

    /** The end of every transaction. */
    method CloseTransaction(final: TransactionState) returns (ok: bool)
      requires repository != null && current.id != ""
      modifies this`active, this`log, this`current, this`closed, repository.journal
      ensures Closed(old(Now()), final, Now())
      ensures Now().contents == old(Now()).contents && Now().events == old(Now()).events
      ensures Now().records == if ok then old(Now()).records[current.id := current] else old(Now()).records
    {
      log := [];
      active := false;
      var now := CurrentTimestamp();
      current := current.(state := final, closedUtc := now);
      closed := closed + [current];
      ok := repository.journal.Write(current);
    }

    method CommitTransactionInternal() returns (ok: bool)
      requires repository != null && repository.Valid() && state == RepositoryOpen
      requires active && current.id != "" && ClosedOnce(begun, closed, Some(current.id))
      modifies this`active, this`log, this`current, this`closed, repository.journal
      ensures Valid() && CommittedTo(old(Now()), Now())
      ensures Now().records == if ok then old(Now()).records[current.id := current] else old(Now()).records
    {
      hide Keyed, KeyedEvents;
      ok := CloseTransaction(Committed);
    }

    /** Runs the compensating operation of e on the stores. */
    method Compensate(e: LogEntry) returns (ok: bool, ghost now: string)
      requires repository != null && repository.Valid()
      modifies repository.objects, repository.relationships, repository.audit
      ensures now != "" && Undo.Compensate(old(repository.Contents()), e, now) == Change(ok, repository.Contents())
      ensures repository.Valid() && Grew(old(repository.audit.events), repository.audit.events)
    {
      hide Noted;
      CompensateKeepsKeys(repository.Contents(), e);
      now := "-";
      ghost var events := repository.audit.events;
      match e {
        case ObjectCreated(o) =>
          ok := repository.objects.Remove(o.id);
          if ok { NotedGrows(events, ObjectDeletedEvent, o.id, repository.audit.events); }
        case ObjectUpdated(o) =>
          ok, now := repository.objects.Update(o);
          if ok { NotedGrows(events, ObjectUpdatedEvent, o.id, repository.audit.events); }
        case ObjectDeleted(o) =>
          var r := repository.objects.Restore(o);
          ok := r.Success?;
        case RelationshipCreated(r) =>
          ok := repository.relationships.Remove(r.id);
          if ok { NotedGrows(events, RelationshipDeletedEvent, r.id, repository.audit.events); }
        case RelationshipUpdated(r) =>
          ok := repository.relationships.Update(r);
          if ok { NotedGrows(events, RelationshipUpdatedEvent, r.id, repository.audit.events); }
        case RelationshipDeleted(rel) =>
          var r := repository.relationships.Restore(rel);
          ok := r.Success?;
      }
    }

    /** Replays the undo log backwards. */
    method UndoLog() returns (complete: bool)
      requires repository != null && repository.Valid()
      modifies repository.objects, repository.relationships, repository.audit
      ensures repository.Valid() && Grew(old(repository.audit.events), repository.audit.events)
      ensures IsUndo(old(repository.Contents()), log, Change(complete, repository.Contents()))
    {
      hide Undo.Compensate, Keyed, KeyedEvents;
      ghost var start := repository.Contents();
      ghost var clock: seq<string> := seq(|log|, _ => "-");
      complete := true;
      for k := |log| downto 0
        invariant |clock| == |log| && IsClock(clock)
        invariant repository.Valid() && Grew(old(repository.audit.events), repository.audit.events)
        invariant UndoFrom(start, log, clock, k) == Change(complete, repository.Contents())
      {
        ghost var before := clock;
        var ok, now := Compensate(log[k]);
        clock := clock[k := now];
        UndoIgnoresEarlierClock(start, log, before, clock, k + 1);
        complete := ok && complete;
      }
    }

    method RollbackTransactionInternal()
      requires Valid() && active
      modifies this`active, this`log, this`current, this`closed, Parts()
      ensures Valid() && !active && Undone(old(Now()), Now())
    {
      hide IsRollback, IsUndo, History, Keyed, KeyedEvents, ClosedOnce, Tells;
      ghost var s := Now();
      var undoComplete := UndoLog();
      ghost var u := Now();
      var _ := CloseTransaction(if undoComplete then RolledBackState else Failed);
      ClosedAfterUndo(s, u, undoComplete, Now());
    }

    method BeginImplicit(description: string) returns (implicit: bool)
      requires Valid() && repository != null
      modifies this`active, this`log, this`current, this`history, this`bypassed, this`begun
      ensures Valid() && Joined(old(Now()), Now()) && implicit == !old(active)
      ensures Now().contents == old(Now()).contents && Now().events == old(Now()).events
    {
      hide Consistent;
      implicit := !active;
      if implicit {
        OpenTransactionInternal(description);
      }
    }

    /** The failure path of every mutation. */
    method Abandon(ghost s: Session)
      requires Valid() && active && Consistent(s) && Joined(s, Now())
      modifies this`active, this`log, this`current, this`closed, Parts()
      ensures Valid() && Mutated(s, None, Now())
    {
      hide Consistent, Mutated;
      ghost var b := Now();
      RollbackTransactionInternal();
      MutationFails(s, b, Now());
    }

    /** The success path of every mutation: it is logged, and closes the transaction if that is its own. */
    method Conclude(implicit: bool, e: LogEntry, previousState: string, newState: string, ghost s: Session,
                    ghost b: Session)
      requires Unlogged(b, e) && previousState == PreviousState(e) && newState == NewState(e, Now().contents)
      requires Consistent(s) && Joined(s, b) && implicit == !s.active
      modifies this`active, this`log, this`current, this`history, this`closed, repository.journal
      ensures Valid() && Mutated(s, Some(e), Now()) && Now().contents == old(Now()).contents
    {
      hide Keyed, KeyedEvents, Step, Mutated, PreviousState, NewState;
      LogMutation(e, previousState, newState, b);
      ghost var m := Now();
      if implicit {
        var _ := CommitTransactionInternal();
      }
      MutationSucceeds(s, b, e, m, Now());
    }

    /** ObjectStore::create within the transaction. */
    method StoreObject(given: EngineeringObject, generated: string) returns (r: Option<EngineeringObject>)
      requires Valid() && active
      modifies repository.objects, repository.audit
      ensures r.Some? <==> CreatableObject(given, generated)
                           && NewId(given.id, generated) !in old(Now()).contents.objects
      ensures r.None? ==> Now() == old(Now()) && Valid()
      ensures r.Some? ==> Unlogged(old(Now()), ObjectCreated(r.value)) && FilledObject(given, generated, r.value)
                          && Now().contents.objects == old(Now()).contents.objects[r.value.id := r.value]
    {
      hide Consistent, Keyed, KeyedEvents, CreatableObject, Noted;
      ghost var events := repository.audit.events;
      var result := repository.objects.Create(given, generated);
      if result.Failure? {
        return None;
      }
      NotedGrows(events, ObjectCreatedEvent, result.value.id, repository.audit.events);
      r := Some(result.value);
    }

    method CreateObject(kind: ObjectType, name: string, description: string, author: string, tags: seq<string>,
                        generated: string)
      returns (r: Option<EngineeringObject>)
      requires Valid() && IsUuid(generated)
      modifies this`active, this`log, this`current, this`history, this`bypassed, this`begun, this`closed, Parts()
      ensures Valid() && (repository == null ==> unchanged(this))
      ensures r.Some? <==> repository != null && name != "" && generated !in old(Now()).contents.objects
      ensures repository != null ==> Mutated(old(Now()), if r.Some? then Some(ObjectCreated(r.value)) else None, Now())
      ensures r.Some? ==> r.value == EngineeringObject(generated, kind, name, description, r.value.created,
                                                       r.value.modified, "1.0.0", author, tags)
                          && Now().contents.objects == old(Now()).contents.objects[generated := r.value]
    {
      hide Consistent, Keyed, KeyedEvents, IsUuid, IsVersion, Mutated, Step, Grew;
      if state != RepositoryOpen {
        return None;
      }
      ghost var s := Now();
      var given := EngineeringObject("", kind, name, description, "", "", "1.0.0", author, tags);
      DefaultVersion();
      var implicit := BeginImplicit("object create");
      ghost var b := Now();
      r := StoreObject(given, generated);
      if r.None? {
        Abandon(s);
        return None;
      }
      Conclude(implicit, ObjectCreated(r.value), "absent", "present:" + r.value.name, s, b);
    }

    /** ObjectStore::update within the transaction. */
    method SaveObject(existing: EngineeringObject, updated: EngineeringObject) returns (ok: bool)
      requires Valid() && active && LoadsAs(Now().contents.objects, existing)
      requires updated == existing.(name := updated.name, description := updated.description,
                                    author := updated.author, tags := updated.tags)
      modifies repository.objects, repository.audit
      ensures ok <==> updated.name != ""
      ensures !ok ==> Now() == old(Now()) && Valid()
      ensures ok ==> Unlogged(old(Now()), ObjectUpdated(existing))
                     && Renewed(old(Now()).contents.objects, updated, Now().contents.objects)
    {
      hide Consistent, Keyed, KeyedEvents, Noted, IsUuid, IsVersion;
      ghost var events, objects := repository.audit.events, repository.objects.records;
      ghost var now;
      ok, now := repository.objects.Update(updated);
      if ok {
        NotedGrows(events, ObjectUpdatedEvent, updated.id, repository.audit.events);
        assert objects[updated.id := updated.(modified := now)] == repository.objects.records;
      }
    }

    method UpdateObject(id: string, name: string, description: string, author: string, tags: seq<string>)
      returns (r: Option<EngineeringObject>)
      requires Valid()
      modifies this`active, this`log, this`current, this`history, this`bypassed, this`begun, this`closed, Parts()
      ensures Valid() && (repository == null ==> unchanged(this))
      ensures r.Some? <==> repository != null && Loads(old(Now()).contents.objects, id) && name != ""
      ensures repository != null ==>
                Mutated(old(Now()), if r.Some? then Some(ObjectUpdated(old(Now()).contents.objects[id])) else None, Now())
      ensures r.Some? ==> Now().contents.objects == old(Now()).contents.objects[id := r.value]
      ensures r.Some? ==> r.value == old(Now()).contents.objects[id].(name := name, description := description,
                                       author := author, tags := tags, modified := r.value.modified)
    {
      hide Consistent, Keyed, KeyedEvents, Mutated, ValidObject;
      if state != RepositoryOpen {
        return None;
      }
      ghost var s := Now();
      var implicit := BeginImplicit("object update");
      ghost var b := Now();
      var existing := repository.objects.Load(id);
      if existing.Failure? {
        Abandon(s);
        return None;
      }
      KeyedObject(b.contents, id);
      var updated := existing.value.(name := name, description := description, author := author, tags := tags);
      var ok := SaveObject(existing.value, updated);
      if !ok {
        Abandon(s);
        return None;
      }
      Conclude(implicit, ObjectUpdated(existing.value), "present:" + existing.value.name, "present:" + updated.name, s, b);
      var reloaded := repository.objects.Load(id);
      r := Some(if reloaded.Success? then reloaded.value else updated);
    }

    /** ObjectStore::remove within the transaction. */
    method EraseObject(existing: EngineeringObject)
      requires Valid() && active && LoadsAs(Now().contents.objects, existing)
      modifies repository.objects, repository.audit
      ensures Unlogged(old(Now()), ObjectDeleted(existing))
    {
      hide Consistent, Keyed, KeyedEvents, Noted, ValidObject;
      ghost var events := repository.audit.events;
      var ok := repository.objects.Remove(existing.id);
      assert ok; // only the file system could still refuse
      NotedGrows(events, ObjectDeletedEvent, existing.id, repository.audit.events);
    }

    method DeleteObject(id: string) returns (ok: bool)
      requires Valid()
      modifies this`active, this`log, this`current, this`history, this`bypassed, this`begun, this`closed, Parts()
      ensures Valid() && (repository == null ==> unchanged(this))
      ensures ok <==> repository != null && Loads(old(Now()).contents.objects, id)
      ensures repository != null ==>
                Mutated(old(Now()), if ok then Some(ObjectDeleted(old(Now()).contents.objects[id])) else None, Now())
    {
      hide Consistent, Keyed, KeyedEvents, Mutated, ValidObject;
      if state != RepositoryOpen {
        return false;
      }
      ghost var s := Now();
      var implicit := BeginImplicit("object delete");
      ghost var b := Now();
      var existing := repository.objects.Load(id);
      if existing.Failure? {
        Abandon(s);
        return false;
      }
      KeyedObject(b.contents, id);
      EraseObject(existing.value);
      Conclude(implicit, ObjectDeleted(existing.value), "present:" + existing.value.name, "absent", s, b);
      ok := true;
    }

    /** RelationshipStore::create within the transaction. */
    method StoreRelationship(given: Relationship, generated: string) returns (r: Option<Relationship>)
      requires Valid() && active
      modifies repository.relationships, repository.audit
      ensures r.Some? <==> CreatableRelationship(given, generated) && EndpointsLoad(old(Now()).contents.objects, given)
                           && NewId(given.id, generated) !in old(Now()).contents.relationships
      ensures r.None? ==> Now() == old(Now()) && Valid()
      ensures r.Some? ==> Unlogged(old(Now()), RelationshipCreated(r.value))
                          && FilledRelationship(given, generated, r.value)
                          && Now().contents.relationships == old(Now()).contents.relationships[r.value.id := r.value]
    {
      hide Consistent, Keyed, KeyedEvents, CreatableRelationship, EndpointsLoad, ValidRelationship, Noted;
      ghost var events := repository.audit.events;
      var result := repository.relationships.Create(given, generated);
      if result.Failure? {
        return None;
      }
      NotedGrows(events, RelationshipCreatedEvent, result.value.id, repository.audit.events);
      r := Some(result.value);
    }

    method CreateRelationship(source: string, target: string, kind: RelationshipType, author: string,
                              description: string, generated: string)
      returns (r: Option<Relationship>)
      requires Valid() && IsUuid(generated)
      modifies this`active, this`log, this`current, this`history, this`bypassed, this`begun, this`closed, Parts()
      ensures Valid() && (repository == null ==> unchanged(this))
      ensures r.Some? <==> repository != null && source != target
                           && Loads(old(Now()).contents.objects, source) && Loads(old(Now()).contents.objects, target)
                           && generated !in old(Now()).contents.relationships
      ensures repository != null ==>
                Mutated(old(Now()), if r.Some? then Some(RelationshipCreated(r.value)) else None, Now())
      ensures r.Some? ==> r.value == Relationship(generated, source, target, kind, r.value.created, author, description)
                          && Now().contents.relationships == old(Now()).contents.relationships[generated := r.value]
    {
      hide Consistent, Keyed, KeyedEvents, Mutated, IsUuid, Loads, ValidRelationship;
      if state != RepositoryOpen {
        return None;
      }
      ghost var s := Now();
      var given := Relationship("", source, target, kind, "", author, description);
      var implicit := BeginImplicit("relationship create");
      ghost var b := Now();
      EndpointIds(b.contents, source);
      EndpointIds(b.contents, target);
      r := StoreRelationship(given, generated);
      if r.None? {
        Abandon(s);
        return None;
      }
      Conclude(implicit, RelationshipCreated(r.value), "absent", "present:" + RelationshipTypeName(r.value.kind), s, b);
    }

    /** RelationshipStore::update within the transaction. */
    method SaveRelationship(existing: Relationship, updated: Relationship)
      requires Valid() && active && LoadsRelationshipAs(Now().contents.relationships, existing)
      requires updated == existing.(author := updated.author, description := updated.description)
      modifies repository.relationships, repository.audit
      ensures Unlogged(old(Now()), RelationshipUpdated(existing))
      ensures Now().contents.relationships == old(Now()).contents.relationships[existing.id := updated]
    {
      hide Consistent, Keyed, KeyedEvents, Noted, IsUuid;
      ghost var events := repository.audit.events;
      var ok := repository.relationships.Update(updated);
      assert ok; // only the file system could still refuse
      assert MergeRelationship(existing, updated) == updated;
      NotedGrows(events, RelationshipUpdatedEvent, updated.id, repository.audit.events);
    }

    method UpdateRelationship(id: string, author: string, description: string) returns (r: Option<Relationship>)
      requires Valid()
      modifies this`active, this`log, this`current, this`history, this`bypassed, this`begun, this`closed, Parts()
      ensures Valid() && (repository == null ==> unchanged(this))
      ensures r.Some? <==> repository != null && LoadsRelationship(old(Now()).contents.relationships, id)
      ensures repository != null ==>
                Mutated(old(Now()), if r.Some? then Some(RelationshipUpdated(old(Now()).contents.relationships[id]))
                                    else None, Now())
      ensures r.Some? ==> Now().contents.relationships == old(Now()).contents.relationships[id := r.value]
      ensures r.Some? ==> r.value == old(Now()).contents.relationships[id].(author := author, description := description)
    {
      hide Consistent, Keyed, KeyedEvents, Mutated, ValidRelationship;
      if state != RepositoryOpen {
        return None;
      }
      ghost var s := Now();
      var implicit := BeginImplicit("relationship update");
      ghost var b := Now();
      var existing := repository.relationships.Load(id);
      if existing.Failure? {
        Abandon(s);
        return None;
      }
      KeyedRelationship(b.contents, id);
      var updated := existing.value.(author := author, description := description);
      SaveRelationship(existing.value, updated);
      Conclude(implicit, RelationshipUpdated(existing.value), "present", "present", s, b);
      var reloaded := repository.relationships.Load(id);
      r := Some(if reloaded.Success? then reloaded.value else updated);
    }

    /** RelationshipStore::remove within the transaction. */
    method EraseRelationship(existing: Relationship)
      requires Valid() && active && LoadsRelationshipAs(Now().contents.relationships, existing)
      modifies repository.relationships, repository.audit
      ensures Unlogged(old(Now()), RelationshipDeleted(existing))
    {
      hide Consistent, Keyed, KeyedEvents, Noted, ValidRelationship;
      ghost var events := repository.audit.events;
      var ok := repository.relationships.Remove(existing.id);
      assert ok; // only the file system could still refuse
      NotedGrows(events, RelationshipDeletedEvent, existing.id, repository.audit.events);
    }

    method DeleteRelationship(id: string) returns (ok: bool)
      requires Valid()
      modifies this`active, this`log, this`current, this`history, this`bypassed, this`begun, this`closed, Parts()
      ensures Valid() && (repository == null ==> unchanged(this))
      ensures ok <==> repository != null && LoadsRelationship(old(Now()).contents.relationships, id)
      ensures repository != null ==>
                Mutated(old(Now()), if ok then Some(RelationshipDeleted(old(Now()).contents.relationships[id])) else None,
                        Now())
    {
      hide Consistent, Keyed, KeyedEvents, Mutated, ValidRelationship;
      if state != RepositoryOpen {
        return false;
      }
      ghost var s := Now();
      var implicit := BeginImplicit("relationship delete");
      ghost var b := Now();
      var existing := repository.relationships.Load(id);
      if existing.Failure? {
        Abandon(s);
        return false;
      }
      KeyedRelationship(b.contents, id);
      EraseRelationship(existing.value);
      Conclude(implicit, RelationshipDeleted(existing.value), "present:" + RelationshipTypeName(existing.value.kind),
               "absent", s, b);
      ok := true;
    }

    method Initialize() returns (ok: bool)
      requires Valid()
      modifies this`state
      ensures Valid()
      ensures ok <==> old(state) == Uninitialized
      ensures state == if ok then Initialized else old(state)
    {
      ok := state == Uninitialized;
      if ok {
        state := Initialized;
      }
    }

    method OpenRepository(root: Repository) returns (ok: bool)
      requires Valid() && root.Valid()
      modifies this`state, this`repository
      ensures Valid()
      ensures ok <==> (old(state) == Initialized || old(state) == RepositoryClosed) && root.Loadable()
      ensures ok ==> state == RepositoryOpen && repository == root && !active
      ensures !ok ==> state == old(state) && repository == old(repository)
    {
      if state != Initialized && state != RepositoryClosed {
        return false;
      }
      if !root.Loadable() {
        return false;
      }
      repository := root;
      state := RepositoryOpen;
      ok := true;
    }

    /** The repository that was left is as sound as before, so that it can be opened again. */
    method ResetRepositoryContext()
      requires Valid()
      modifies this`active, this`log, this`current, this`closed, this`repository, this`state, Parts()
      ensures state == RepositoryClosed && Valid() && repository == null
      ensures old(repository) != null ==> old(repository).Valid() && Left(old(Now()), At(old(repository)))
      ensures old(repository) == null ==> closed == old(closed) && begun == old(begun)
    {
      hide Undone, History, Keyed, KeyedEvents;
      if active {
        RollbackTransactionInternal();
      }
      assert log == [] && ClosedOnce(begun, closed, None);
      repository := null;
      state := RepositoryClosed;
    }

    method CloseRepository() returns (ok: bool)
      requires Valid()
      modifies this`active, this`log, this`current, this`closed, this`repository, this`state, Parts()
      ensures Valid() && repository == null
      ensures ok <==> old(state) == RepositoryOpen
      ensures ok ==> state == RepositoryClosed && old(repository).Valid() && Left(old(Now()), At(old(repository)))
      ensures !ok ==> unchanged(this)
    {
      hide Consistent, Keyed, KeyedEvents, Left;
      if state != RepositoryOpen {
        return false;
      }
      ResetRepositoryContext();
      ok := true;
    }

    method ShutDown() returns (ok: bool)
      requires Valid()
      modifies this`active, this`log, this`current, this`closed, this`repository, this`state, Parts()
      ensures Valid() && state == Shutdown && repository == null && !active
      ensures ok <==> old(state) != Shutdown
      ensures old(repository) != null ==> old(repository).Valid() && Left(old(Now()), At(old(repository)))
      ensures old(repository) == null ==> closed == old(closed) && begun == old(begun)
    {
      hide Keyed, KeyedEvents, Left;
      if state == Shutdown {
        return false;
      }
      ResetRepositoryContext();
      state := Shutdown;
      ok := true;
    }

    method BeginTransaction() returns (ok: bool)
      requires Valid()
      modifies this`active, this`log, this`current, this`history, this`bypassed, this`begun
      ensures Valid()
      ensures ok <==> repository != null && !old(active)
      ensures if ok then Begun(old(Now()), "transaction", Now()) else unchanged(this)
    {
      if state != RepositoryOpen || active {
        return false;
      }
      OpenTransactionInternal("transaction");
      ok := true;
    }

    /** False also when only the journal record could not be written: the mutations are then committed. */
    method CommitTransaction() returns (ok: bool)
      requires Valid()
      modifies this`active, this`log, this`current, this`closed, if repository == null then {} else {repository.journal}
      ensures Valid() && !active
      ensures old(active) ==> CommittedTo(old(Now()), Now()) && Tells(current.entries, old(log))
      ensures old(active) ==> Now().records == if ok then old(Now()).records[current.id := current]
                                               else old(Now()).records
      ensures !old(active) ==> !ok && unchanged(this)
    {
      if state != RepositoryOpen || !active {
        return false;
      }
      ok := CommitTransactionInternal();
    }

    method RollbackTransaction() returns (ok: bool)
      requires Valid()
      modifies this`active, this`log, this`current, this`closed, Parts()
      ensures Valid() && !active
      ensures ok <==> old(active)
      ensures if ok then Undone(old(Now()), Now()) else unchanged(this)
    {
      hide IsUndo, IsRollback, Consistent;
      if state != RepositoryOpen || !active {
        return false;
      }
      RollbackTransactionInternal();
      ok := true;
    }

    /** One item of a batch. */
    method CreateNext(specs: seq<ObjectSpec>, supply: seq<string>, i: nat, ghost b: Session)
      returns (r: Option<EngineeringObject>)
      requires Valid() && active && i < |specs| == |supply| && Uuids(supply) && BatchMade(b, specs, supply, i, Now())
      modifies this`active, this`log, this`current, this`history, this`bypassed, this`begun, this`closed, Parts()
      ensures Valid() && state == old(state) && repository == old(repository)
      ensures r.Some? <==> specs[i].name != "" && supply[i] !in b.contents.objects && supply[i] !in supply[..i]
      ensures r.Some? ==> active && BatchMade(b, specs, supply, i + 1, Now())
                          && Now().contents.objects == old(Now()).contents.objects[supply[i] := r.value]
      ensures r.None? ==> BatchUndone(b, specs, supply, i, Now())
    {
      hide Undone, Consistent, Keyed, KeyedEvents, BatchMade, ClosedOne, Step, Grew, NewState;
      ghost var m := Now();
      var spec := specs[i];
      BatchTaken(b, specs, supply, i, m);
      assert IsUuid(supply[i]) by { assert supply[i] in supply; }
      r := CreateObject(spec.kind, spec.name, spec.description, spec.author, spec.tags, supply[i]);
      if r.Some? {
        BatchMadeMore(b, specs, supply, i, m, r.value, Now());
      }
    }

    /** The loop of a batch, inside an active transaction. */
    method CreateAll(specs: seq<ObjectSpec>, supply: seq<string>)
      returns (failedIndex: int, created: seq<EngineeringObject>)
      requires Valid() && active && |supply| == |specs| && Uuids(supply)
      modifies this`active, this`log, this`current, this`history, this`bypassed, this`begun, this`closed, Parts()
      ensures Valid() && state == old(state) && repository == old(repository)
      ensures -1 <= failedIndex < |specs| && RefusedAt(old(Now()).contents.objects, specs, supply, failedIndex)
      ensures if failedIndex == -1 then active && BatchMade(old(Now()), specs, supply, |specs|, Now())
              else BatchUndone(old(Now()), specs, supply, failedIndex, Now())
      ensures failedIndex == -1 ==> Returns(created, Now().contents.objects, supply)
    {
      hide BatchMade, BatchUndone, Consistent, Keyed, KeyedEvents, Fresh;
      created := [];
      ghost var b := Now();
      BatchStarts(b, specs, supply);
      for i := 0 to |specs|
        invariant Valid() && active && Named(specs[..i]) && BatchMade(b, specs, supply, i, Now())
        invariant state == old(state) && repository == old(repository)
        invariant Returns(created, Now().contents.objects, supply[..i])
      {
        ghost var m := Now();
        BatchTaken(b, specs, supply, i, m);
        var r := CreateNext(specs, supply, i, b);
        if r.None? {
          return i, [];
        }
        assert supply[..i + 1] == supply[..i] + [supply[i]];
        created := created + [r.value];
      }
      BatchFresh(b, specs, supply, Now());
      assert specs[..|specs|] == specs && supply[..|specs|] == supply;
      failedIndex := -1;
    }

    /** A batch that begins and closes its own transaction. All or nothing, up to one case: when only the journal
        record could not be written, it reports failure with index -1, but what it made stays. */
    method BatchAlone(specs: seq<ObjectSpec>, supply: seq<string>)
      returns (ok: bool, failedIndex: int, made: seq<EngineeringObject>)
      requires Valid() && repository != null && !active && |supply| == |specs| && Uuids(supply)
      modifies this`active, this`log, this`current, this`history, this`bypassed, this`begun, this`closed, Parts()
      ensures Valid() && state == old(state) && repository == old(repository)
      ensures -1 <= failedIndex < |specs| && RefusedAt(old(Now()).contents.objects, specs, supply, failedIndex)
      ensures if failedIndex == -1 then BatchCommitted(old(Now()), specs, supply, Now())
              else !ok && BatchVanished(old(Now()), Now())
      ensures failedIndex == -1 ==> Returns(made, Now().contents.objects, supply)
      ensures failedIndex == -1 ==> Now().records == if ok then old(Now()).records[current.id := current]
                                                     else old(Now()).records
    {
      hide BatchMade, BatchUndone, Consistent, Keyed, KeyedEvents, RefusedAt, BatchCommitted;
      ghost var s := Now();
      OpenTransactionInternal("batch object create");
      ghost var b := Now();
      failedIndex, made := CreateAll(specs, supply);
      if failedIndex != -1 {
        BatchVanishes(s, "batch object create", b, specs, supply, failedIndex, Now());
        return false, failedIndex, [];
      }
      ghost var m := Now();
      BatchRecords(b, specs, supply, m);
      ok := CommitTransaction();
      BatchCommits(s, "batch object create", b, specs, supply, m, Now());
    }

    method BatchCreateObjects(specs: seq<ObjectSpec>, supply: seq<string>)
      returns (ok: bool, failedIndex: int, created: seq<EngineeringObject>)
      requires Valid() && |supply| == |specs| && Uuids(supply)
      modifies this`active, this`log, this`current, this`history, this`bypassed, this`begun, this`closed, Parts()
      ensures Valid()
      ensures repository == null ==> !ok && failedIndex == -1 && unchanged(this)
      ensures repository != null ==> -1 <= failedIndex < |specs|
                                     && RefusedAt(old(Now()).contents.objects, specs, supply, failedIndex)
      ensures repository != null && old(active) ==>
                && (ok <==> failedIndex == -1)
                && if ok then active && BatchMade(old(Now()), specs, supply, |specs|, Now())
                   else BatchUndone(old(Now()), specs, supply, failedIndex, Now())
      ensures repository != null && !old(active) ==>
                if failedIndex == -1 then
                  && BatchCommitted(old(Now()), specs, supply, Now())
                  && Now().records == if ok then old(Now()).records[current.id := current] else old(Now()).records
                else !ok && BatchVanished(old(Now()), Now())
      ensures if ok then Returns(created, Now().contents.objects, supply) else created == []
    {
      hide BatchMade, BatchUndone, BatchVanished, BatchCommitted, Consistent, Keyed, KeyedEvents, RefusedAt;
      if state != RepositoryOpen {
        return false, -1, [];
      }
      if active {
        failedIndex, created := CreateAll(specs, supply);
        ok := failedIndex == -1;
      } else {
        ok, failedIndex, created := BatchAlone(specs, supply);
      }
      if !ok {
        created := [];
      }
    }

    /** Takes back an install that cannot be completed. */
    method Uninstall(ghost s: Session, description: string, ghost b: Session, p: Package, ghost supply: Supply,
                     ghost n: nat, ghost k: nat)
      requires Valid() && active && !s.active && Begun(s, description, b)
      requires Suffices(supply, p) && n <= |p.objects| && k <= |p.relationships| && Installing(b, p, supply, n, k, Now())
      modifies this`active, this`log, this`current, this`closed, Parts()
      ensures Valid() && NotInstalled(s, Now())
    {
      hide Creating, Undone, ClosedOne, Begun, HasObjects, HasRelationships, Consistent, OnlyCreates;
      ghost var m := Now();
      RollbackTransactionInternal();
      CreationsUndone(s, b, NewObjectIds(p.objects, supply.objects)[..n],
                      NewRelationshipIds(p.relationships, supply.relationships)[..k], m, Now());
    }

    /** One object of a package. */
    method InstallObject(p: Package, supply: Supply, n: nat, ghost b: Session) returns (r: Option<EngineeringObject>)
      requires Valid() && active && Suffices(supply, p) && n < |p.objects| && Installing(b, p, supply, n, 0, Now())
      modifies this`log, this`current, this`history, repository.objects, repository.audit
      ensures Valid() && active && state == old(state)
      ensures r.Some? <==> CreatableObject(p.objects[n], supply.objects[n])
                           && NewId(p.objects[n].id, supply.objects[n]) !in old(Now()).contents.objects
      ensures if r.Some? then Installing(b, p, supply, n + 1, 0, Now()) else Now() == old(Now())
      ensures r.Some? ==> r.value.id == NewId(p.objects[n].id, supply.objects[n])
    {
      hide Installing, CreatableObject, Consistent, Keyed, KeyedEvents, Step, Grew;
      ghost var m := Now();
      r := StoreObject(p.objects[n], supply.objects[n]);
      if r.Some? {
        LogMutation(ObjectCreated(r.value), "absent", "present:" + r.value.name, m);
        ObjectInstalled(b, p, supply, n, m, r.value, Now());
      }
    }

    /** One relationship of a package. */
    method InstallRelationship(p: Package, supply: Supply, k: nat, ghost b: Session) returns (r: Option<Relationship>)
      requires Valid() && active && Suffices(supply, p) && k < |p.relationships|
      requires Installing(b, p, supply, |p.objects|, k, Now())
      modifies this`log, this`current, this`history, repository.relationships, repository.audit
      ensures Valid() && active && state == old(state)
      ensures r.Some? <==> CreatableRelationship(p.relationships[k], supply.relationships[k])
                           && EndpointsLoad(old(Now()).contents.objects, p.relationships[k])
                           && NewId(p.relationships[k].id, supply.relationships[k])
                              !in old(Now()).contents.relationships
      ensures if r.Some? then Installing(b, p, supply, |p.objects|, k + 1, Now()) else Now() == old(Now())
      ensures r.Some? ==> r.value.id == NewId(p.relationships[k].id, supply.relationships[k])
    {
      hide Installing, CreatableRelationship, EndpointsLoad, Consistent, Keyed, KeyedEvents, Step, Grew;
      ghost var m := Now();
      r := StoreRelationship(p.relationships[k], supply.relationships[k]);
      if r.Some? {
        LogMutation(RelationshipCreated(r.value), "absent", "present:" + RelationshipTypeName(r.value.kind), m);
        RelationshipInstalled(b, p, supply, k, m, r.value, Now());
      }
    }

    method InstallObjects(p: Package, supply: Supply, ghost b: Session)
      returns (ok: bool, ids: seq<string>, ghost n: nat)
      requires Valid() && active && Suffices(supply, p) && Installing(b, p, supply, 0, 0, Now())
      modifies this`log, this`current, this`history, repository.objects, repository.audit
      ensures Valid() && active && state == old(state)
      ensures n <= |p.objects| && Installing(b, p, supply, n, 0, Now()) && (ok ==> n == |p.objects|)
      ensures ok <==> ObjectsInstallable(b.contents.objects, p.objects, supply.objects)
      ensures ok ==> ids == NewObjectIds(p.objects, supply.objects)
    {
      hide Installing, CreatableObject, Consistent, Keyed, KeyedEvents, ObjectsInstallable;
      ids, n := [], 0;
      for i := 0 to |p.objects|
        invariant Valid() && active && state == old(state) && n == i
        invariant Installing(b, p, supply, i, 0, Now())
        invariant ids == NewObjectIds(p.objects, supply.objects)[..i]
      {
        NextObject(b, p, supply, i, Now());
        var r := InstallObject(p, supply, i, b);
        if r.None? {
          return false, ids, n;
        }
        ids, n := ids + [r.value.id], n + 1;
      }
      ObjectsWereInstallable(b, p, supply, Now());
      ok := true;
    }

    method InstallRelationships(p: Package, supply: Supply, ghost b: Session)
      returns (ok: bool, ids: seq<string>, ghost k: nat)
      requires Valid() && active && Suffices(supply, p) && Installing(b, p, supply, |p.objects|, 0, Now())
      modifies this`log, this`current, this`history, repository.relationships, repository.audit
      ensures Valid() && active && state == old(state)
      ensures k <= |p.relationships| && Installing(b, p, supply, |p.objects|, k, Now())
              && (ok ==> k == |p.relationships|)
      ensures ok <==> RelationshipsInstallable(b.contents, NewObjectIds(p.objects, supply.objects), p.relationships,
                                               supply.relationships)
      ensures ok ==> ids == NewRelationshipIds(p.relationships, supply.relationships)
    {
      hide Installing, CreatableRelationship, Consistent, Keyed, KeyedEvents, RelationshipsInstallable, EndpointsLoad,
           Available;
      ids, k := [], 0;
      ghost var objectIds := NewObjectIds(p.objects, supply.objects);
      for i := 0 to |p.relationships|
        invariant Valid() && active && state == old(state) && k == i
        invariant Installing(b, p, supply, |p.objects|, i, Now())
        invariant ids == NewRelationshipIds(p.relationships, supply.relationships)[..i]
        invariant forall j :: 0 <= j < i ==> Available(b.contents.objects, objectIds, p.relationships[j].source)
                                             && Available(b.contents.objects, objectIds, p.relationships[j].target)
      {
        NextRelationship(b, p, supply, i, Now());
        ghost var m := Now();
        var r := InstallRelationship(p, supply, i, b);
        if r.None? {
          RefusedRelationship(b, p, supply, i, m);
          return false, ids, k;
        }
        ids, k := ids + [r.value.id], k + 1;
      }
      RelationshipsWereInstallable(b, p, supply, Now());
      ok := true;
    }

    /** Writes the registry entry and commits, unless the registry refuses. */
    method RecordInstall(p: Package, archive: Archive, supply: Supply, objectIds: seq<string>,
                         relationshipIds: seq<string>, writable: bool, ghost s: Session, ghost b: Session)
      returns (ok: bool)
      requires Valid() && active && archive.trust.Some? && Suffices(supply, p)
      requires !s.active && Begun(s, "install " + p.manifest.packageId, b)
      requires Installing(b, p, supply, |p.objects|, |p.relationships|, Now()) && OnlyCreates(log)
      requires objectIds == NewObjectIds(p.objects, supply.objects)
      requires relationshipIds == NewRelationshipIds(p.relationships, supply.relationships)
      modifies this`active, this`log, this`current, this`closed, Parts()
      ensures Valid()
      ensures ok <==> writable && p.manifest.packageId != "" && p.manifest.packageId !in old(Now()).entries
      ensures if ok then Installed(s, p, archive, supply, Now()) else NotInstalled(s, Now())
    {
      hide Installing, Installed, NotInstalled, Begun, Keyed, KeyedEvents, OnlyCreates, TellsInstall, History;
      ghost var m := Now();
      var now := CurrentTimestamp();
      var entry := Registry.RegistryEntry(p.manifest, now, "local", archive.path, archive.hash, "Installed",
                                          TrustName(archive.trust.value), archive.fingerprint, objectIds,
                                          relationshipIds);
      ok := repository.registry.RecordInstall(entry, writable);
      if !ok {
        Uninstall(s, "install " + p.manifest.packageId, b, p, supply, |p.objects|, |p.relationships|);
        return;
      }
      ghost var r := Now();
      JournalOperation("PackageRecorded", p.manifest.packageId, "absent", "installed:" + p.manifest.version);
      InstallTold(m.current, log, current, p.manifest.packageId, "absent", "installed:" + p.manifest.version);
      ghost var c := Now();
      var _ := CommitTransactionInternal();
      InstallCompleted(s, "install " + p.manifest.packageId, b, p, archive, supply, m, r, c, Now());
    }

    /** The transaction of an install. */
    method InstallContents(p: Package, archive: Archive, supply: Supply, writable: bool) returns (ok: bool)
      requires Valid() && repository != null && !active && archive.trust.Some? && Suffices(supply, p)
      modifies this`active, this`log, this`current, this`history, this`bypassed, this`begun, this`closed, Parts()
      ensures Valid()
      ensures ok <==> Installable(old(Now()).contents, p, supply) && writable && p.manifest.packageId != ""
                      && p.manifest.packageId !in old(Now()).entries
      ensures if ok then Installed(old(Now()), p, archive, supply, Now()) else NotInstalled(old(Now()), Now())
    {
      hide Installing, Installed, NotInstalled, Consistent, Keyed, KeyedEvents, ObjectsInstallable,
           RelationshipsInstallable;
      ghost var s := Now();
      OpenTransactionInternal("install " + p.manifest.packageId);
      ghost var b := Now();
      NothingInstalled(b, p, supply);
      var objectIds, relationshipIds;
      ghost var n, k;
      ok, objectIds, n := InstallObjects(p, supply, b);
      if !ok {
        Uninstall(s, "install " + p.manifest.packageId, b, p, supply, n, 0);
        return;
      }
      ok, relationshipIds, k := InstallRelationships(p, supply, b);
      if !ok {
        Uninstall(s, "install " + p.manifest.packageId, b, p, supply, |p.objects|, k);
        return;
      }
      InstallingKeeps(s, "install " + p.manifest.packageId, b, p, supply, Now());
      ok := RecordInstall(p, archive, supply, objectIds, relationshipIds, writable, s, b);
    }

    /** Installs the extracted package as one transaction: everything in it and its registry entry, or nothing. */
    method InstallPackage(extracted: Option<Package>, archive: Archive, supply: Supply, writable: bool)
      returns (ok: bool, objectsCreated: nat, relationshipsCreated: nat)
      requires Valid() && (extracted.Some? ==> Suffices(supply, extracted.value))
      modifies this`active, this`log, this`current, this`history, this`bypassed, this`begun, this`closed, Parts()
      ensures Valid()
      ensures ok <==> repository != null && !old(active) && extracted.Some? && TrustAllows(archive) && writable
                      && extracted.value.manifest.packageId != ""
                      && extracted.value.manifest.packageId !in old(Now()).entries
                      && Installable(old(Now()).contents, extracted.value, supply)
      ensures ok ==> Installed(old(Now()), extracted.value, archive, supply, Now())
                     && objectsCreated == |extracted.value.objects|
                     && relationshipsCreated == |extracted.value.relationships|
      ensures !ok ==> objectsCreated == 0 && relationshipsCreated == 0
      ensures !ok && repository != null ==> NotInstalled(old(Now()), Now())
      ensures repository == null || old(active) || !TrustAllows(archive) ==> unchanged(this) && unchanged(Parts())
    {
      hide Installed, Consistent, Keyed, KeyedEvents, Installable, ClosedOne;
      ok, objectsCreated, relationshipsCreated := false, 0, 0;
      if state != RepositoryOpen || active {
        return;
      }
      if extracted.None? {
        return;
      }
      var p := extracted.value;
      if repository.registry.IsInstalled(p.manifest.packageId).Some? {
        return;
      }
      if archive.trust.None? {
        return;
      }
      if archive.trust.value != Trusted && archive.trust.value != Unsigned {
        return;
      }
      if archive.trust.value == Unsigned && archive.signaturesRequired {
        return;
      }
      ok := InstallContents(p, archive, supply, writable);
      if ok {
        objectsCreated, relationshipsCreated := |p.objects|, |p.relationships|;
      }
    }

    /** Verification reads the live stores: every recorded contribution is looked up, and the archive, if it is
        still there, must have the recorded hash. */
    method VerifyPackage(packageId: string, archiveHash: Option<string>)
      returns (ok: bool, verified: bool, objectsPresent: nat, relationshipsPresent: nat)
      requires Valid()
      ensures ok <==> repository != null && packageId in Now().entries
      ensures ok ==> var entry := Now().entries[packageId];
                && objectsPresent == |Present(entry.objectIds, LoadableObjects(Now().contents.objects))|
                && relationshipsPresent
                   == |Present(entry.relationshipIds, LoadableRelationships(Now().contents.relationships))|
                && (verified <==> Intact(Now().contents, entry, archiveHash))
    {
      hide Consistent, Present, ValidObject, ValidRelationship;
      ok, verified, objectsPresent, relationshipsPresent := false, false, 0, 0;
      if state != RepositoryOpen {
        return;
      }
      var found := repository.registry.IsInstalled(packageId);
      if found.None? {
        return;
      }
      ok := true;
      var entry := found.value;
      ghost var objects := LoadableObjects(Now().contents.objects);
      ghost var relationships := LoadableRelationships(Now().contents.relationships);
      NonePresent(objects);
      NonePresent(relationships);
      for i := 0 to |entry.objectIds|
        invariant objectsPresent == |Present(entry.objectIds[..i], objects)|
      {
        PresentStep(entry.objectIds, i, objects);
        if repository.objects.Load(entry.objectIds[i]).Success? {
          objectsPresent := objectsPresent + 1;
        }
      }
      for i := 0 to |entry.relationshipIds|
        invariant relationshipsPresent == |Present(entry.relationshipIds[..i], relationships)|
      {
        PresentStep(entry.relationshipIds, i, relationships);
        if repository.relationships.Load(entry.relationshipIds[i]).Success? {
          relationshipsPresent := relationshipsPresent + 1;
        }
      }
      assert entry.objectIds[..|entry.objectIds|] == entry.objectIds;
      assert entry.relationshipIds[..|entry.relationshipIds|] == entry.relationshipIds;
      AllPresent(entry.objectIds, objects);
      AllPresent(entry.relationshipIds, relationships);
      var intact := objectsPresent == |entry.objectIds| && relationshipsPresent == |entry.relationshipIds|;
      var available := entry.installationPath != "" && archiveHash.Some?;
      verified := intact && (!available || entry.packageHash == "" || archiveHash == Some(entry.packageHash));
    }

    /** Validates and carries out the request directly on the stores, whether or not a transaction is active. */
    method ExecuteBatchCreate(objects: seq<B.ObjectSpec>, relationships: seq<B.RelationshipSpec>, supply: seq<string>,
                              relationshipSupply: seq<string>)
      returns (ok: bool, objectsCreated: nat, relationshipsCreated: nat)
      requires Valid() && |supply| == |objects| && |relationshipSupply| == |relationships|
      requires Uuids(supply) && Uuids(relationshipSupply)
      modifies this`bypassed, Parts()
      ensures Valid()
      ensures repository == null ==> !ok && objectsCreated == 0 && relationshipsCreated == 0 && unchanged(this)
      ensures repository != null ==>
                && Bypassed(old(Now()), Now())
                && B.Executed(old(Now()).contents, objects, relationships, supply, relationshipSupply, ok,
                              objectsCreated, relationshipsCreated, Now().contents)
    {
      hide Consistent, Keyed, KeyedEvents, B.Executed;
      if state != RepositoryOpen {
        return false, 0, 0;
      }
      ghost var s := Now();
      assert Keyed(s.contents) && KeyedEvents(s.events);
      ok, objectsCreated, relationshipsCreated := B.ExecuteBatchCreate(objects, relationships, supply,
        relationshipSupply, repository.objects, repository.relationships);
      bypassed := bypassed || (active && repository.Contents() != s.contents);
      BypassedConsistent(s, Now());
    }

    method ExecuteBatchDelete(ids: seq<string>, relationshipIds: seq<string>)
      returns (ok: bool, objectsDeleted: nat, relationshipsDeleted: nat)
      requires Valid()
      modifies this`bypassed, Parts()
      ensures Valid()
      ensures repository == null ==> !ok && objectsDeleted == 0 && relationshipsDeleted == 0 && unchanged(this)
      ensures repository != null ==>
                && Bypassed(old(Now()), Now())
                && B.Deleted(old(Now()).contents, ids, relationshipIds, ok, objectsDeleted, relationshipsDeleted,
                             Now().contents)
    {
      hide Consistent, KeyedEvents, B.Deleted;
      if state != RepositoryOpen {
        return false, 0, 0;
      }
      ghost var s := Now();
      ok, objectsDeleted, relationshipsDeleted := B.ExecuteBatchDelete(ids, relationshipIds, repository.objects,
        repository.relationships);
      B.DeletionExact(s.contents, ids, relationshipIds, ok, objectsDeleted, relationshipsDeleted,
                      repository.Contents());
      bypassed := bypassed || (active && repository.Contents() != s.contents);
      BypassedConsistent(s, Now());
    }
  }

  /** Right after it was installed a package verifies, with all its contributions present, as long as the archive has
      not been changed. */
  method InstallThenVerify(runtime: FoundationRuntime, p: Package, archive: Archive, supply: Supply, writable: bool,
                           archiveHash: Option<string>)
    returns (installed: bool, verified: bool, objectsPresent: nat, relationshipsPresent: nat)
    requires runtime.Valid() && Suffices(supply, p)
    requires archiveHash.None? || archiveHash == Some(archive.hash)
    modifies runtime, runtime.Parts()
    ensures runtime.Valid()
    ensures installed ==> verified && objectsPresent == |p.objects| && relationshipsPresent == |p.relationships|
  {
    hide Installed, NotInstalled, Installable, Consistent, Keyed, KeyedEvents, Intact, LoadableObjects,
         LoadableRelationships, Loads, Present, TrustAllows;
    installed, verified, objectsPresent, relationshipsPresent := false, false, 0, 0;
    if runtime.repository == null {
      return;
    }
    ghost var s := runtime.Now();
    var n, k;
    installed, n, k := runtime.InstallPackage(Some(p), archive, supply, writable);
    if installed {
      InstalledIntact(s, p, archive, supply, runtime.Now(), archiveHash);
      var found;
      found, verified, objectsPresent, relationshipsPresent := runtime.VerifyPackage(p.manifest.packageId, archiveHash);
      AllPresentIntact(runtime.Now().contents, runtime.Now().entries[p.manifest.packageId], archiveHash);
    }
  }

  lemma AllPresentIntact(s: Stores, entry: Registry.RegistryEntry, archiveHash: Option<string>)
    requires Intact(s, entry, archiveHash)
    ensures |Present(entry.objectIds, LoadableObjects(s.objects))| == |entry.objectIds|
    ensures |Present(entry.relationshipIds, LoadableRelationships(s.relationships))| == |entry.relationshipIds|
  {
    AllPresent(entry.objectIds, LoadableObjects(s.objects));
    AllPresent(entry.relationshipIds, LoadableRelationships(s.relationships));
  }

  /** Begin, create one object by a direct batch, roll back: the object stays, and the journal says that the
      transaction was rolled back. */
  method DirectCreationOutlivesRollback(runtime: FoundationRuntime, spec: B.ObjectSpec, id: string)
    requires runtime.Valid() && runtime.repository != null && !runtime.active
    requires spec.name != "" && IsUuid(id) && id !in runtime.Now().contents.objects
    modifies runtime, runtime.Parts()
    ensures runtime.Valid() && runtime.repository != null && !runtime.active
    ensures id !in old(runtime.Now()).contents.objects && id in runtime.Now().contents.objects
    ensures runtime.current.state == RolledBackState
  {
    hide B.Executed, Bypassed, Begun, Undone, Consistent, Keyed, KeyedEvents, IsUuid;
    ghost var s := runtime.Now();
    var _ := runtime.BeginTransaction();
    ghost var b := runtime.Now();
    BegunContents(s, "transaction", b);
    var ok, n, k := runtime.ExecuteBatchCreate([spec], [], [id], []);
    ghost var d := runtime.Now();
    B.OneObject(s.contents, spec, id, ok, n, k, d.contents);
    BypassedActive(b, d);
    var _ := runtime.RollbackTransaction();
    OnlyBypassed(s, b, d, runtime.Now());
  }

  lemma BegunContents(s: Session, description: string, b: Session)
    requires Begun(s, description, b)
    ensures b.active && b.contents == s.contents
  {
  }

  lemma BypassedActive(b: Session, d: Session)
    requires Bypassed(b, d)
    ensures d.active == b.active
  {
  }
}
