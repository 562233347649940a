/** The transaction engine as a state machine: what its steps make of everything the runtime and the open repository
    hold. */
module Transactions {
  import opened Options
  import opened Records
  import opened StoreModel
  import opened Undo
  import opened Journal
  import Registry

  function Operation(e: LogEntry): string {
    match e
    case ObjectCreated(_) => "ObjectCreated"
    case ObjectUpdated(_) => "ObjectUpdated"
    case ObjectDeleted(_) => "ObjectDeleted"
    case RelationshipCreated(_) => "RelationshipCreated"
    case RelationshipUpdated(_) => "RelationshipUpdated"
    case RelationshipDeleted(_) => "RelationshipDeleted"
  }

  function Target(e: LogEntry): string {
    if e.ObjectCreated? || e.ObjectUpdated? || e.ObjectDeleted? then e.obj.id else e.rel.id
  }

  /** How the journal describes the record before the mutation. */
  function PreviousState(e: LogEntry): string {
    match e
    case ObjectUpdated(o) => "present:" + o.name
    case ObjectDeleted(o) => "present:" + o.name
    case RelationshipUpdated(_) => "present"
    case RelationshipDeleted(r) => "present:" + RelationshipTypeName(r.kind)
    case _ => "absent"
  }

  /** How the journal describes the record after the mutation, which led to t. */
  function NewState(e: LogEntry, t: Stores): string {
    match e
    case ObjectCreated(o) => "present:" + o.name
    case ObjectUpdated(o) => if o.id in t.objects then "present:" + t.objects[o.id].name else "absent"
    case RelationshipCreated(r) => "present:" + RelationshipTypeName(r.kind)
    case RelationshipUpdated(_) => "present"
    case _ => "absent"
  }

  /** What the journal says of each kind of mutation, which led to t. */
  lemma MutationTold(e: LogEntry, t: Stores)
    ensures var told := (Operation(e), Target(e), PreviousState(e), NewState(e, t));
            match e
            case ObjectCreated(o) => told == ("ObjectCreated", o.id, "absent", "present:" + o.name)
            case ObjectUpdated(o) => o.id in t.objects ==>
              told == ("ObjectUpdated", o.id, "present:" + o.name, "present:" + t.objects[o.id].name)
            case ObjectDeleted(o) => told == ("ObjectDeleted", o.id, "present:" + o.name, "absent")
            case RelationshipCreated(r) =>
              told == ("RelationshipCreated", r.id, "absent", "present:" + RelationshipTypeName(r.kind))
            case RelationshipUpdated(r) => told == ("RelationshipUpdated", r.id, "present", "present")
            case RelationshipDeleted(r) =>
              told == ("RelationshipDeleted", r.id, "present:" + RelationshipTypeName(r.kind), "absent")
  {
  }

  /** The journal entries tell the undo log one for one, in order. */
  ghost predicate Tells(entries: seq<JournalEntry>, log: seq<LogEntry>) {
    && |entries| == |log|
    && forall i :: 0 <= i < |log| ==> entries[i].operation == Operation(log[i]) && entries[i].target == Target(log[i])
                                      && entries[i].previousState == PreviousState(log[i])
  }

  /** Every transaction begun was closed once, with a final record, except perhaps the active one. */
  ghost predicate ClosedOnce(begun: seq<string>, closed: seq<TransactionRecord>, active: Option<string>) {
    && |begun| == |closed| + (if active.Some? then 1 else 0)
    && (forall i :: 0 <= i < |closed| ==> closed[i].id == begun[i] && closed[i].state != Opened)
    && (active.Some? ==> begun[|closed|] == active.value)
  }

  /** The runtime's transaction, everything on disk, and for the proofs: the contents of the stores since the
      transaction began, one for each log entry and one more; whether something was written past the log; all
      transactions ever begun, and the records with which they were closed. */
  datatype Session = Session(
    active: bool,
    log: seq<LogEntry>,
    current: TransactionRecord,
    history: seq<Stores>,
    bypassed: bool,
    begun: seq<string>,
    closed: seq<TransactionRecord>,
    contents: Stores,
    events: Events,
    entries: map<string, Registry.RegistryEntry>,
    records: map<string, TransactionRecord>)

  /** The invariant of every run. */
  ghost predicate Consistent(s: Session) {
    && Keyed(s.contents) && KeyedEvents(s.events)
    && ClosedOnce(s.begun, s.closed, if s.active then Some(s.current.id) else None)
    && if s.active then Tracking(s) else s.log == []
  }

  ghost predicate Tracking(s: Session) {
    && s.current.id != "" && s.current.state == Opened && Tells(s.current.entries, s.log)
    && (!s.bypassed ==> Accounted(s))
  }

  /** The log accounts for everything since the transaction began. */
  ghost predicate Accounted(s: Session) {
    |s.history| == |s.log| + 1 && History(s.history, s.log) && s.history[|s.log|] == s.contents
  }

  ghost predicate Begun(s: Session, description: string, t: Session) {
    && t == s.(active := true, log := [], current := t.current, history := [s.contents], bypassed := false,
               begun := s.begun + [t.current.id])
    && t.current == TransactionRecord(t.current.id, Opened, description, t.current.openedUtc, "", [])
    && t.current.id != ""
  }

  /** One more entry in the journal record. */
  ghost predicate Appended(c: TransactionRecord, operation: string, target: string, previousState: string,
                           newState: string, d: TransactionRecord) {
    exists now :: d == c.(entries := c.entries + [JournalEntry(now, operation, target, previousState, newState)])
  }

  /** A mutation was carried out and logged as e. */
  ghost predicate Logged(s: Session, e: LogEntry, t: Session) {
    && t == s.(log := s.log + [e], history := s.history + [t.contents], current := t.current, contents := t.contents,
               events := t.events)
    && Step(s.contents, e, t.contents) && Grew(s.events, t.events) && KeyedEvents(t.events)
    && Appended(s.current, Operation(e), Target(e), PreviousState(e), NewState(e, t.contents), t.current)
  }

  /** The journal took the record, or the file system refused it. */
  ghost predicate Written(before: map<string, TransactionRecord>, record: TransactionRecord,
                          after: map<string, TransactionRecord>) {
    after == before || after == before[record.id := record]
  }

  ghost predicate Closed(s: Session, final: TransactionState, t: Session) {
    && t.current == s.current.(state := final, closedUtc := t.current.closedUtc)
    && t == s.(active := false, log := [], current := t.current, closed := s.closed + [t.current],
               contents := t.contents, events := t.events, records := t.records)
    && Written(s.records, t.current, t.records)
  }

  ghost predicate CommittedTo(s: Session, t: Session) {
    Closed(s, Committed, t) && t.contents == s.contents && t.events == s.events
  }

  /** The transaction was rolled back, and the journal says whether completely. */
  ghost predicate Undone(s: Session, t: Session) {
    && (Closed(s, RolledBackState, t) || Closed(s, Failed, t))
    && Grew(s.events, t.events) && KeyedEvents(t.events) && Keyed(t.contents)
    && var change := Change(t.current.state == RolledBackState, t.contents);
       IsUndo(s.contents, s.log, change) && (!s.bypassed ==> IsRollback(s.history, s.log, change))
  }

  /** A transaction was begun and closed as final, and its record tells log. */
  ghost predicate ClosedOne(s: Session, final: TransactionState, log: seq<LogEntry>, t: Session) {
    && !t.active && t.log == [] && t.entries == s.entries
    && t.begun == s.begun + [t.current.id] && t.closed == s.closed + [t.current]
    && t.current.state == final && Tells(t.current.entries, log)
    && Written(s.records, t.current, t.records) && Grew(s.events, t.events)
  }

  /** The effect of a mutation that logs e, or of one that fails. Inside a transaction it joins it, and a failure
      rolls back everything since it began; outside it is a transaction of its own, and a failure changes no store. */
  ghost predicate Mutated(s: Session, e: Option<LogEntry>, t: Session) {
    if s.active then (if e.Some? then Logged(s, e.value, t) else Undone(s, t))
    else if e.Some? then ClosedOne(s, Committed, [e.value], t) && Step(s.contents, e.value, t.contents)
    else ClosedOne(s, RolledBackState, [], t) && t.contents == s.contents
  }

  /** b is s, inside a transaction. */
  ghost predicate Joined(s: Session, b: Session) {
    b.active && if s.active then b == s else exists description :: Begun(s, description, b)
  }

  lemma UuidNotEmpty(id: string)
    requires IsUuid(id)
    ensures id != ""
  {
  }

  lemma ConsistentKeyed(s: Session)
    requires Consistent(s)
    ensures Keyed(s.contents) && KeyedEvents(s.events)
  {
  }

  lemma BegunConsistent(s: Session, description: string, t: Session)
    requires Consistent(s) && !s.active && Begun(s, description, t)
    ensures Consistent(t)
  {
  }

  lemma LoggedConsistent(s: Session, e: LogEntry, t: Session)
    requires Consistent(s) && s.active && Logged(s, e, t)
    ensures Consistent(t)
  {
    StepKeepsKeys(s.contents, e, t.contents);
    hide Step, Keyed, KeyedEvents;
    if !s.bypassed {
      ExtendHistory(s.history, s.log, e, t.contents);
    }
  }

  lemma ClosedConsistent(s: Session, final: TransactionState, t: Session)
    requires Consistent(s) && s.active && final != Opened && Closed(s, final, t)
    requires Keyed(t.contents) && KeyedEvents(t.events)
    ensures Consistent(t)
  {
    hide History, Keyed, KeyedEvents;
  }

  /** A rollback is the one of the theorem as long as nothing was written past the log. */
  lemma UndoneByTheLog(s: Session, change: Change<Stores>)
    requires Consistent(s) && s.active && !s.bypassed && IsUndo(s.contents, s.log, change)
    ensures IsRollback(s.history, s.log, change)
  {
    hide History, IsRollback, Keyed, KeyedEvents;
    UndoIsRollback(s.history, s.log, change);
  }

  /** Undoing the log and closing the transaction accordingly is a rollback. */
  lemma ClosedAfterUndo(s: Session, u: Session, complete: bool, t: Session)
    requires Consistent(s) && s.active && u == s.(contents := u.contents, events := u.events)
    requires IsUndo(s.contents, s.log, Change(complete, u.contents))
    requires Grew(s.events, u.events) && KeyedEvents(u.events) && Keyed(u.contents)
    requires Closed(u, if complete then RolledBackState else Failed, t)
    requires t.contents == u.contents && t.events == u.events
    ensures Undone(s, t) && Consistent(t)
  {
    hide IsUndo, IsRollback, History, Keyed, KeyedEvents;
    if !s.bypassed {
      UndoneByTheLog(s, Change(complete, u.contents));
    }
    ClosedConsistent(s, t.current.state, t);
  }

  lemma MutationSucceeds(s: Session, b: Session, e: LogEntry, m: Session, t: Session)
    requires Consistent(s) && Joined(s, b) && Logged(b, e, m)
    requires if s.active then t == m else CommittedTo(m, t)
    ensures Mutated(s, Some(e), t)
  {
    hide Step, History, Keyed, NewState;
  }

  lemma MutationFails(s: Session, b: Session, t: Session)
    requires Consistent(s) && Joined(s, b) && Undone(b, t)
    ensures Mutated(s, None, t)
  {
    hide IsRollback, IsUndo, History, Keyed;
    if !s.active {
      CreationsLeaveNoTrace(b.history, b.log, Change(t.current.state == RolledBackState, t.contents));
    }
  }

  /** In the active transaction of b nothing but creations has happened up to s: of these identifiers, which were
      free and are distinct. */
  ghost predicate Creating(b: Session, objectIds: seq<string>, relationshipIds: seq<string>, s: Session) {
    && s == b.(log := s.log, history := s.history, current := s.current, contents := s.contents, events := s.events)
    && s.current == b.current.(entries := s.current.entries)
    && |b.log| <= |s.log| && s.log[..|b.log|] == b.log && OnlyCreates(s.log[|b.log|..]) && b.history <= s.history
    && Extends(b.contents.objects, objectIds, s.contents.objects)
    && Extends(b.contents.relationships, relationshipIds, s.contents.relationships)
    && Grew(b.events, s.events)
  }

  lemma CreatingNothing(b: Session)
    ensures Creating(b, [], [], b)
  {
  }

  lemma CreatingMore(b: Session, objectIds: seq<string>, relationshipIds: seq<string>, s: Session, e: LogEntry,
                     t: Session)
    requires Creating(b, objectIds, relationshipIds, s) && Logged(s, e, t)
    ensures e.ObjectCreated? ==> Creating(b, objectIds + [e.obj.id], relationshipIds, t)
    ensures e.RelationshipCreated? ==> Creating(b, objectIds, relationshipIds + [e.rel.id], t)
  {
    hide Extends, ValidObject, ValidRelationship, EndpointsLoad, NewState;
    assert t.log[..|b.log|] == s.log[..|b.log|];
    assert t.log[|b.log|..] == s.log[|b.log|..] + [e];
    if e.ObjectCreated? {
      ExtendsMore(b.contents.objects, objectIds, s.contents.objects, e.obj.id, e.obj);
    } else if e.RelationshipCreated? {
      ExtendsMore(b.contents.relationships, relationshipIds, s.contents.relationships, e.rel.id, e.rel);
    }
  }

  /** A transaction that only created leaves no trace in the stores when it is rolled back, and never fails to. */
  lemma CreationsUndone(s: Session, b: Session, objectIds: seq<string>, relationshipIds: seq<string>, m: Session,
                        t: Session)
    requires !s.active && (exists description :: Begun(s, description, b))
    requires Creating(b, objectIds, relationshipIds, m) && Consistent(m) && Undone(m, t)
    ensures OnlyCreates(m.log) && ClosedOne(s, RolledBackState, m.log, t) && t.contents == s.contents
  {
    hide IsRollback, IsUndo, History, Keyed, Extends;
    assert m.log[|b.log|..] == m.log;
    CreationsLeaveNoTrace(m.history, m.log, Change(t.current.state == RolledBackState, t.contents));
  }

  /** Leaving a repository: an active transaction is rolled back first, while its stores are still there. */
  ghost predicate Left(s: Session, t: Session) {
    if s.active then Undone(s, t) else t == s
  }

  /** The stores were written directly, past the log of the active transaction if there is one. */
  ghost predicate Bypassed(s: Session, t: Session) {
    && t == s.(contents := t.contents, events := t.events,
               bypassed := s.bypassed || (s.active && t.contents != s.contents))
    && Grew(s.events, t.events) && KeyedEvents(t.events) && Keyed(t.contents)
  }

  lemma BypassedConsistent(s: Session, t: Session)
    requires Consistent(s) && Bypassed(s, t)
    ensures Consistent(t)
  {
    hide History, Keyed, KeyedEvents;
  }

  /** Direct writes survive a rollback: every record that the log does not mention stays as they left it, and so is
      as it was when the transaction began exactly if they left it so. */
  lemma BypassSurvives(s: Session, t: Session)
    requires s.active && Undone(s, t)
    ensures AgreeOutside(s.contents, t.contents, s.log)
    ensures s.log == [] ==> t.contents == s.contents && t.current.state == RolledBackState
  {
    hide IsUndo, IsRollback, Keyed;
    UndoKeepsUnlogged(s.contents, s.log, Change(t.current.state == RolledBackState, t.contents));
  }

  /** A transaction in which only direct writes happened: a rollback brings back the beginning exactly if they
      changed nothing, but the journal says that it was rolled back in either case. */
  lemma OnlyBypassed(s: Session, b: Session, d: Session, t: Session)
    requires (exists description :: Begun(s, description, b)) && Bypassed(b, d) && Undone(d, t)
    ensures t.contents == d.contents && t.current.state == RolledBackState
    ensures t.contents == s.contents <==> !d.bypassed
  {
    hide IsUndo, IsRollback, Keyed;
    BypassSurvives(d, t);
  }
}
