/** What the store operations do to the sets of records, which are keyed by identifier. */
module StoreModel {
  import opened Records
  import opened Sequences

  type Objects = map<string, EngineeringObject>
  type Relationships = map<string, Relationship>
  type Events = map<string, AuditEvent>

  datatype Stores = Stores(objects: Objects, relationships: Relationships)

  datatype Change<+T> = Change(done: bool, after: T)

  /** Every record is stored under its own identifier. It need not pass validation: files may come from elsewhere. */
  ghost predicate Keyed(s: Stores) {
    && (forall id :: id in s.objects ==> s.objects[id].id == id)
    && (forall id :: id in s.relationships ==> s.relationships[id].id == id)
  }

  /** ObjectStore::load succeeds. */
  predicate Loads(m: Objects, id: string) {
    id in m && ValidObject(m[id])
  }

  /** The common part of ObjectStore::create and restore. */
  function InsertObject(m: Objects, o: EngineeringObject): Change<Objects> {
    if ValidObject(o) && o.id !in m then Change(true, m[o.id := o]) else Change(false, m)
  }

  /** The identifier under which a record is created, when the generator would give the next one. */
  function NewId(given: string, generated: string): string {
    if given == "" then generated else given
  }

  /** The record a creation tries to store: generated fields filled in, modification time always fresh. */
  ghost predicate FilledObject(given: EngineeringObject, generated: string, o: EngineeringObject) {
    && o == given.(id := NewId(given.id, generated), created := o.created, modified := o.modified)
    && (if given.created == "" then o.created == o.modified else o.created == given.created)
    && o.modified != ""
  }

  /** What the caller has to get right for a creation to pass validation. */
  predicate CreatableObject(given: EngineeringObject, generated: string) {
    IsUuid(NewId(given.id, generated)) && given.name != "" && IsVersion(given.version)
  }

  ghost predicate FilledRelationship(given: Relationship, generated: string, r: Relationship) {
    && r == given.(id := NewId(given.id, generated), created := r.created)
    && (if given.created == "" then r.created != "" else r.created == given.created)
  }

  predicate CreatableRelationship(given: Relationship, generated: string) {
    IsUuid(NewId(given.id, generated)) && IsUuid(given.source) && IsUuid(given.target) && given.source != given.target
  }

  /** The record an update writes: identifier, type and creation time are immutable, and the modification time
      is always refreshed. */
  function MergeObject(existing: EngineeringObject, o: EngineeringObject, now: string): EngineeringObject {
    o.(kind := existing.kind, created := existing.created, modified := now)
  }

  function UpdateObject(m: Objects, o: EngineeringObject, now: string): Change<Objects> {
    if o.id in m && ValidObject(MergeObject(m[o.id], o, now))
    then Change(true, m[o.id := MergeObject(m[o.id], o, now)])
    else Change(false, m)
  }

  function RemoveObject(m: Objects, id: string): Change<Objects> {
    if id in m then Change(true, m - {id}) else Change(false, m)
  }

  /** RelationshipStore::load succeeds. */
  predicate LoadsRelationship(m: Relationships, id: string) {
    id in m && ValidRelationship(m[id])
  }

  /** The object loads under its identifier. */
  predicate LoadsAs(m: Objects, o: EngineeringObject) {
    Loads(m, o.id) && m[o.id] == o
  }

  predicate LoadsRelationshipAs(m: Relationships, r: Relationship) {
    LoadsRelationship(m, r.id) && m[r.id] == r
  }

  lemma KeyedObject(s: Stores, id: string)
    requires Keyed(s)
    ensures Loads(s.objects, id) ==> s.objects[id].id == id && LoadsAs(s.objects, s.objects[id])
  {
  }

  lemma KeyedRelationship(s: Stores, id: string)
    requires Keyed(s)
    ensures LoadsRelationship(s.relationships, id) ==>
              s.relationships[id].id == id && LoadsRelationshipAs(s.relationships, s.relationships[id])
  {
  }

  lemma EndpointIds(s: Stores, id: string)
    requires Keyed(s)
    ensures Loads(s.objects, id) ==> IsUuid(id)
  {
  }

  /** The update of an object took place, at some time. */
  ghost predicate Renewed(m: Objects, o: EngineeringObject, n: Objects) {
    exists now :: n == m[o.id := o.(modified := now)] && ValidObject(n[o.id])
  }

  predicate EndpointsLoad(m: Objects, r: Relationship) {
    Loads(m, r.source) && Loads(m, r.target)
  }

  /** The common part of RelationshipStore::create and restore: both endpoints must be there. */
  function InsertRelationship(s: Stores, r: Relationship): Change<Relationships> {
    if ValidRelationship(r) && EndpointsLoad(s.objects, r) && r.id !in s.relationships
    then Change(true, s.relationships[r.id := r])
    else Change(false, s.relationships)
  }

  /** Only author and description may change. */
  function MergeRelationship(existing: Relationship, r: Relationship): Relationship {
    existing.(id := r.id, author := r.author, description := r.description)
  }

  function UpdateRelationship(m: Relationships, r: Relationship): Change<Relationships> {
    if r.id in m && ValidRelationship(MergeRelationship(m[r.id], r))
    then Change(true, m[r.id := MergeRelationship(m[r.id], r)])
    else Change(false, m)
  }

  /** A deletion cascades nowhere. */
  function RemoveRelationship(m: Relationships, id: string): Change<Relationships> {
    if id in m then Change(true, m - {id}) else Change(false, m)
  }

  /** The audit log after an event is offered to it. */
  function AppendEvent(m: Events, e: AuditEvent): Events {
    if ValidAuditEvent(e) && e.id !in m then m[e.id := e] else m
  }

  /** Nothing recorded is ever lost or changed. */
  ghost predicate Grew(m: Events, n: Events) {
    forall id :: id in m ==> id in n && n[id] == m[id]
  }

  /** An event of the kind about the subject was offered to the log, under a generated identifier. */
  ghost predicate Noted(m: Events, kind: AuditEventType, subject: string, n: Events) {
    exists id, now :: IsUuid(id) && now != "" && n == AppendEvent(m, AuditEvent(id, now, kind, subject, "", ""))
  }

  ghost predicate KeyedEvents(m: Events) {
    forall id :: id in m ==> m[id].id == id
  }

  lemma NotedGrows(m: Events, kind: AuditEventType, subject: string, n: Events)
    requires Noted(m, kind, subject, n)
    ensures Grew(m, n) && (KeyedEvents(m) ==> KeyedEvents(n))
  {
  }

  /** n is m with new records under the identifiers, which were free and are distinct. */
  ghost predicate Extends<T>(m: map<string, T>, ids: seq<string>, n: map<string, T>) {
    && (forall id :: id in n <==> id in m || id in ids)
    && (forall id :: id in m ==> id !in ids && n[id] == m[id])
    && (forall i, j :: 0 <= i < j < |ids| ==> ids[i] != ids[j])
  }

  lemma NothingExtends<T>(m: map<string, T>)
    ensures Extends(m, [], m)
  {
  }

  lemma ExtendsMore<T>(m: map<string, T>, ids: seq<string>, n: map<string, T>, id: string, v: T)
    requires Extends(m, ids, n) && id !in n
    ensures Extends(m, ids + [id], n[id := v])
  {
  }

  /** Identifiers that are free and distinct. */
  ghost predicate Fresh<T>(m: map<string, T>, ids: seq<string>) {
    NoDuplicates(ids) && forall id :: id in ids ==> id !in m
  }

  /** The first k identifiers are fresh, and if there is one more it is not. */
  ghost predicate FreshUpTo<T>(m: map<string, T>, ids: seq<string>, k: nat) {
    && k <= |ids| && Fresh(m, ids[..k])
    && (k < |ids| ==> ids[k] in m || ids[k] in ids[..k])
  }

  ghost predicate Uuids(ids: seq<string>) {
    forall id :: id in ids ==> IsUuid(id)
  }

  lemma FreshMore<T>(m: map<string, T>, ids: seq<string>, k: nat)
    requires k < |ids| && Fresh(m, ids[..k]) && ids[k] !in m && ids[k] !in ids[..k]
    ensures Fresh(m, ids[..k + 1])
  {
    assert ids[..k + 1] == ids[..k] + [ids[k]];
  }

  /** Only one number of identifiers is fresh in this sense: all of them exactly if they are fresh. */
  lemma FreshAll<T>(m: map<string, T>, ids: seq<string>, k: nat)
    requires FreshUpTo(m, ids, k)
    ensures Fresh(m, ids) <==> k == |ids|
  {
    if k == |ids| {
      assert ids[..k] == ids;
    } else {
      assert ids[k] in ids;
    }
  }

  lemma TakenExactly<T>(before: map<string, T>, ids: seq<string>, after: map<string, T>, id: string)
    requires Extends(before, ids, after)
    ensures id in after <==> id in before || id in ids
  {
  }

  lemma DefaultVersion()
    ensures IsVersion("1.0.0")
  {
    var v := "1.0.0";
    assert v[1] == '.' && v[3] == '.' && forall k :: 0 <= k < |v| && k != 1 && k != 3 ==> IsDigit(v[k]);
  }
}
