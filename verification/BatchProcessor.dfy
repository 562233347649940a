/** Batches of creations and deletions, validated as a whole before anything is written. */
module BatchProcessor {
  import opened Records
  import opened StoreModel
  import opened Sequences
  import S = Stores

  datatype ObjectSpec = ObjectSpec(
    ref: string,
    kind: ObjectType,
    name: string,
    description: string,
    author: string,
    tags: seq<string>)

  datatype RelationshipSpec = RelationshipSpec(
    source: string,
    target: string,
    kind: RelationshipType,
    author: string,
    description: string)

  datatype Finding =
    | DuplicateRef(index: nat)
    | NoName(index: nat)
    | NoSource(index: nat)
    | UnknownSource(index: nat)
    | NoTarget(index: nat)
    | UnknownTarget(index: nat)
    | SameEndpoints(index: nat)

  /** The references given to the objects of the batch. */
  function Refs(objects: seq<ObjectSpec>): set<string> {
    set o | o in objects && o.ref != "" :: o.ref
  }

  ghost predicate DistinctRefs(objects: seq<ObjectSpec>) {
    forall i, j :: 0 <= i < j < |objects| && objects[i].ref != "" ==> objects[i].ref != objects[j].ref
  }

  ghost predicate Named(objects: seq<ObjectSpec>) {
    forall i :: 0 <= i < |objects| ==> objects[i].name != ""
  }

  /** An endpoint is an object of the batch or one of the store. */
  ghost predicate Known(m: Objects, refs: set<string>, endpoint: string) {
    endpoint != "" && (endpoint in refs || Loads(m, endpoint))
  }

  ghost predicate Joins(m: Objects, refs: set<string>, r: RelationshipSpec) {
    Known(m, refs, r.source) && Known(m, refs, r.target) && r.source != r.target
  }

  /** What validation is for. */
  ghost predicate Sound(objects: seq<ObjectSpec>, relationships: seq<RelationshipSpec>, m: Objects) {
    && DistinctRefs(objects) && Named(objects)
    && forall i :: 0 <= i < |relationships| ==> Joins(m, Refs(objects), relationships[i])
  }

  /** The finding is true of one of the first n objects. */
  ghost predicate ObjectFinding(f: Finding, objects: seq<ObjectSpec>, n: nat)
    requires n <= |objects|
  {
    f.index < n
    && match f
       case DuplicateRef(i) => objects[i].ref != "" && objects[i].ref in Refs(objects[..i])
       case NoName(i) => objects[i].name == ""
       case _ => false
  }

  /** The finding is true of one of the first n relationships. */
  ghost predicate RelationshipFinding(f: Finding, m: Objects, refs: set<string>, relationships: seq<RelationshipSpec>,
                                      n: nat)
    requires n <= |relationships|
  {
    f.index < n
    && match f
       case NoSource(i) => relationships[i].source == ""
       case UnknownSource(i) => relationships[i].source != "" && !Known(m, refs, relationships[i].source)
       case NoTarget(i) => relationships[i].target == ""
       case UnknownTarget(i) => relationships[i].target != "" && !Known(m, refs, relationships[i].target)
       case SameEndpoints(i) => relationships[i].source != "" && relationships[i].source == relationships[i].target
       case _ => false
  }

  /** Exactly the findings that are true of the request. */
  method ValidateBatchCreate(objects: seq<ObjectSpec>, relationships: seq<RelationshipSpec>, store: S.ObjectStore)
    returns (findings: seq<Finding>)
    ensures forall f :: f in findings
              <==> ObjectFinding(f, objects, |objects|)
                   || RelationshipFinding(f, store.records, Refs(objects), relationships, |relationships|)
    ensures findings == [] <==> Sound(objects, relationships, store.records)
  {
    hide Loads, Refs;
    findings := ValidateObjects(objects);
    var knownRefs := Refs(objects);
    for i := 0 to |relationships|
      invariant forall f :: f in findings <==> ObjectFinding(f, objects, |objects|)
                                               || RelationshipFinding(f, store.records, knownRefs, relationships, i)
    {
      var more := ValidateRelationship(relationships[i], i, knownRefs, store);
      findings := findings + more;
    }
    SoundMeaning(objects, relationships, store.records, findings);
  }

  method ValidateRelationship(spec: RelationshipSpec, i: nat, knownRefs: set<string>, store: S.ObjectStore)
    returns (findings: seq<Finding>)
    ensures forall f :: f in findings
              <==> (f == NoSource(i) && spec.source == "")
                   || (f == UnknownSource(i) && spec.source != "" && !Known(store.records, knownRefs, spec.source))
                   || (f == NoTarget(i) && spec.target == "")
                   || (f == UnknownTarget(i) && spec.target != "" && !Known(store.records, knownRefs, spec.target))
                   || (f == SameEndpoints(i) && spec.source != "" && spec.source == spec.target)
  {
    hide Loads;
    findings := [];
    if spec.source == "" {
      findings := findings + [NoSource(i)];
    } else if spec.source !in knownRefs && store.Load(spec.source).Failure? {
      findings := findings + [UnknownSource(i)];
    }
    if spec.target == "" {
      findings := findings + [NoTarget(i)];
    } else if spec.target !in knownRefs && store.Load(spec.target).Failure? {
      findings := findings + [UnknownTarget(i)];
    }
    if spec.source != "" && spec.source == spec.target {
      findings := findings + [SameEndpoints(i)];
    }
  }

  method ValidateObjects(objects: seq<ObjectSpec>) returns (findings: seq<Finding>)
    ensures forall f :: f in findings <==> ObjectFinding(f, objects, |objects|)
  {
    findings := [];
    var seen: set<string> := {};
    for i := 0 to |objects|
      invariant seen == Refs(objects[..i])
      invariant forall f :: f in findings <==> ObjectFinding(f, objects, i)
    {
      var spec := objects[i];
      RefsAppend(objects, i);
      if spec.ref != "" {
        if spec.ref in seen {
          findings := findings + [DuplicateRef(i)];
        }
        seen := seen + {spec.ref};
      }
      if spec.name == "" {
        findings := findings + [NoName(i)];
      }
    }
  }

  lemma RefsAppend(objects: seq<ObjectSpec>, i: nat)
    requires i < |objects|
    ensures Refs(objects[..i + 1]) == Refs(objects[..i]) + if objects[i].ref == "" then {} else {objects[i].ref}
  {
    assert objects[..i + 1] == objects[..i] + [objects[i]];
  }

  /** A request is sound when nothing can be found against it. */
  lemma SoundMeaning(objects: seq<ObjectSpec>, relationships: seq<RelationshipSpec>, m: Objects, findings: seq<Finding>)
    requires forall f :: f in findings <==> ObjectFinding(f, objects, |objects|)
                                            || RelationshipFinding(f, m, Refs(objects), relationships, |relationships|)
    ensures findings == [] <==> Sound(objects, relationships, m)
  {
    hide Loads;
    if findings == [] {
      forall i, j | 0 <= i < j < |objects| && objects[i].ref != "" ensures objects[i].ref != objects[j].ref {
        assert !ObjectFinding(DuplicateRef(j), objects, |objects|);
        assert objects[i] in objects[..j];
      }
      forall i | 0 <= i < |objects| ensures objects[i].name != "" {
        assert !ObjectFinding(NoName(i), objects, |objects|);
      }
      forall i | 0 <= i < |relationships| ensures Joins(m, Refs(objects), relationships[i]) {
        assert !RelationshipFinding(NoSource(i), m, Refs(objects), relationships, |relationships|);
        assert !RelationshipFinding(UnknownSource(i), m, Refs(objects), relationships, |relationships|);
        assert !RelationshipFinding(NoTarget(i), m, Refs(objects), relationships, |relationships|);
        assert !RelationshipFinding(UnknownTarget(i), m, Refs(objects), relationships, |relationships|);
        assert !RelationshipFinding(SameEndpoints(i), m, Refs(objects), relationships, |relationships|);
      }
    } else {
      var f := findings[0];
      assert f in findings;
      if ObjectFinding(f, objects, |objects|) && f.DuplicateRef? {
        var k :| 0 <= k < f.index && objects[k].ref == objects[f.index].ref;
      } else if RelationshipFinding(f, m, Refs(objects), relationships, |relationships|) {
        assert !Joins(m, Refs(objects), relationships[f.index]);
      }
    }
  }

  predicate MadeObject(spec: ObjectSpec, o: EngineeringObject) {
    o == EngineeringObject(o.id, spec.kind, spec.name, spec.description, o.created, o.modified, "1.0.0", spec.author,
                           spec.tags)
  }

  /** The objects made, under the identifiers ids, from the first of the specifications. */
  ghost predicate MadeObjects(before: Objects, objects: seq<ObjectSpec>, ids: seq<string>, after: Objects) {
    && |ids| <= |objects| && Extends(before, ids, after)
    && forall i :: 0 <= i < |ids| ==> after[ids[i]].id == ids[i] && ValidObject(after[ids[i]])
                                      && MadeObject(objects[i], after[ids[i]])
  }

  /** The references made so far, each with the identifier of its object. */
  ghost predicate Resolves(refs: map<string, string>, objects: seq<ObjectSpec>, ids: seq<string>)
    requires |ids| <= |objects|
  {
    && (forall i :: 0 <= i < |ids| && objects[i].ref != "" ==> objects[i].ref in refs && refs[objects[i].ref] == ids[i])
    && (forall r :: r in refs ==> exists i :: 0 <= i < |ids| && objects[i].ref == r && r != "")
  }

  function Resolve(refs: map<string, string>, endpoint: string): string {
    if endpoint in refs then refs[endpoint] else endpoint
  }

  predicate MadeRelationship(spec: RelationshipSpec, refs: map<string, string>, r: Relationship) {
    && r.source == (if spec.source in refs then refs[spec.source] else spec.source)
    && r.target == (if spec.target in refs then refs[spec.target] else spec.target)
    && r == Relationship(r.id, r.source, r.target, spec.kind, r.created, spec.author, spec.description)
  }

  ghost predicate MadeRelationships(before: Relationships, relationships: seq<RelationshipSpec>,
                                    refs: map<string, string>, ids: seq<string>, after: Relationships) {
    && |ids| <= |relationships| && Extends(before, ids, after)
    && forall i :: 0 <= i < |ids| ==> after[ids[i]].id == ids[i] && ValidRelationship(after[ids[i]])
                                      && MadeRelationship(relationships[i], refs, after[ids[i]])
  }

  /** The objects, object i under the generated identifier supply[i], until one is already taken. */
  method CreateObjects(objects: seq<ObjectSpec>, supply: seq<string>, store: S.ObjectStore)
    returns (ok: bool, created: nat, refs: map<string, string>)
    requires Named(objects) && DistinctRefs(objects) && |supply| == |objects| && Uuids(supply)
    modifies store`records, store.audit
    ensures FreshUpTo(old(store.records), supply, created) && (ok <==> created == |objects|)
    ensures MadeObjects(old(store.records), objects, supply[..created], store.records)
    ensures Resolves(refs, objects, supply[..created])
    ensures Grew(old(store.audit.events), store.audit.events)
    ensures KeyedEvents(old(store.audit.events)) ==> KeyedEvents(store.audit.events)
  {
    hide IsUuid, IsVersion, ValidObject, Extends, Noted;
    refs, created := map[], 0;
    NothingExtends(store.records);
    for i := 0 to |objects|
      invariant created == i && Fresh(old(store.records), supply[..i])
      invariant MadeObjects(old(store.records), objects, supply[..i], store.records)
      invariant Resolves(refs, objects, supply[..i])
      invariant Grew(old(store.audit.events), store.audit.events)
      invariant KeyedEvents(old(store.audit.events)) ==> KeyedEvents(store.audit.events)
    {
      var spec := objects[i];
      var given := EngineeringObject("", spec.kind, spec.name, spec.description, "", "", "1.0.0", spec.author, spec.tags);
      ghost var before, events := store.records, store.audit.events;
      var r := store.Create(given, supply[i]);
      TakenExactly(old(store.records), supply[..i], before, supply[i]);
      DefaultVersion();
      if r.Failure? {
        return false, created, refs;
      }
      NotedGrows(events, ObjectCreatedEvent, r.value.id, store.audit.events);
      assert supply[..i + 1] == supply[..i] + [supply[i]];
      MadeMore(old(store.records), objects, supply[..i], before, r.value);
      ResolvesMore(refs, objects, supply[..i], supply[i]);
      FreshMore(old(store.records), supply, i);
      created := created + 1;
      if spec.ref != "" {
        refs := refs[spec.ref := r.value.id];
      }
    }
    ok := true;
  }

  lemma MadeMore(before: Objects, objects: seq<ObjectSpec>, ids: seq<string>, m: Objects, o: EngineeringObject)
    requires MadeObjects(before, objects, ids, m) && |ids| < |objects|
    requires ValidObject(o) && o.id !in m && MadeObject(objects[|ids|], o)
    ensures MadeObjects(before, objects, ids + [o.id], m[o.id := o])
  {
    hide ValidObject, Extends;
    assert forall i :: 0 <= i < |ids| ==> ids[i] in m by { MadeThere(before, ids, m); }
    ExtendsMore(before, ids, m, o.id, o);
  }

  lemma MadeThere<T>(before: map<string, T>, ids: seq<string>, m: map<string, T>)
    requires Extends(before, ids, m)
    ensures forall i :: 0 <= i < |ids| ==> ids[i] in m
  {
    assert forall i :: 0 <= i < |ids| ==> ids[i] in ids;
  }

  lemma ResolvesMore(refs: map<string, string>, objects: seq<ObjectSpec>, ids: seq<string>, id: string)
    requires |ids| < |objects| && Resolves(refs, objects, ids)
    requires DistinctRefs(objects)
    ensures var spec := objects[|ids|];
            Resolves(if spec.ref == "" then refs else refs[spec.ref := id], objects, ids + [id])
  {
  }

  /** Both endpoints stand for existing objects, and different ones. */
  ghost predicate Ready(m: Objects, refs: map<string, string>, r: RelationshipSpec) {
    && Loads(m, Resolve(refs, r.source)) && Loads(m, Resolve(refs, r.target))
    && Resolve(refs, r.source) != Resolve(refs, r.target)
  }

  /** An endpoint of a sound request stands for an object: the one made for the reference, or an old one. */
  lemma ResolvedEndpoint(objects: seq<ObjectSpec>, before: Objects, refs: map<string, string>, ids: seq<string>,
                         after: Objects, endpoint: string)
    returns (i: nat)
    requires MadeObjects(before, objects, ids, after) && |ids| == |objects| && Resolves(refs, objects, ids)
    requires Known(before, Refs(objects), endpoint)
    ensures Loads(after, Resolve(refs, endpoint))
    ensures endpoint in refs <==> i < |objects|
    ensures endpoint in refs ==> objects[i].ref == endpoint && Resolve(refs, endpoint) == ids[i]
    ensures endpoint !in refs ==> Resolve(refs, endpoint) == endpoint && endpoint in before
  {
    hide ValidObject;
    i := |objects|;
    if endpoint in refs {
      i :| 0 <= i < |ids| && objects[i].ref == endpoint;
      assert ids[i] in ids;
    } else {
      RefsMade(objects, refs, ids, endpoint);
    }
  }

  lemma RefsMade(objects: seq<ObjectSpec>, refs: map<string, string>, ids: seq<string>, ref: string)
    requires |ids| == |objects| && Resolves(refs, objects, ids)
    ensures ref in Refs(objects) ==> ref in refs
  {
    if o :| o in objects && o.ref == ref && ref != "" {
      var k :| 0 <= k < |objects| && objects[k] == o;
      assert objects[k].ref in refs;
    }
  }

  lemma EndpointsReady(objects: seq<ObjectSpec>, before: Objects, refs: map<string, string>, ids: seq<string>,
                       after: Objects, r: RelationshipSpec)
    requires MadeObjects(before, objects, ids, after) && |ids| == |objects| && Resolves(refs, objects, ids)
    requires Joins(before, Refs(objects), r)
    ensures Ready(after, refs, r)
  {
    hide Resolves, Refs, Loads;
    var i := ResolvedEndpoint(objects, before, refs, ids, after, r.source);
    var j := ResolvedEndpoint(objects, before, refs, ids, after, r.target);
    assert i < |ids| ==> ids[i] in ids;
    assert j < |ids| ==> ids[j] in ids;
  }

  method CreateRelationships(relationships: seq<RelationshipSpec>, refs: map<string, string>, supply: seq<string>,
                             store: S.RelationshipStore)
    returns (ok: bool, created: nat)
    requires forall id :: id in store.objects.records ==> store.objects.records[id].id == id
    requires forall r :: r in relationships ==> Ready(store.objects.records, refs, r)
    requires |supply| == |relationships| && Uuids(supply)
    modifies store`records, store.audit
    ensures FreshUpTo(old(store.records), supply, created) && (ok <==> created == |relationships|)
    ensures MadeRelationships(old(store.records), relationships, refs, supply[..created], store.records)
    ensures Grew(old(store.audit.events), store.audit.events)
    ensures KeyedEvents(old(store.audit.events)) ==> KeyedEvents(store.audit.events)
  {
    hide IsUuid, Extends, Ready, Noted, ValidRelationship, EndpointsLoad;
    created := 0;
    NothingExtends(store.records);
    for i := 0 to |relationships|
      invariant created == i && Fresh(old(store.records), supply[..i])
      invariant MadeRelationships(old(store.records), relationships, refs, supply[..i], store.records)
      invariant Grew(old(store.audit.events), store.audit.events)
      invariant KeyedEvents(old(store.audit.events)) ==> KeyedEvents(store.audit.events)
    {
      var spec := relationships[i];
      var given := Relationship("", Resolve(refs, spec.source), Resolve(refs, spec.target), spec.kind, "", spec.author,
                                spec.description);
      ghost var before, events := store.records, store.audit.events;
      GivenStorable(spec, refs, store.objects.records, supply[i], given);
      var r := store.Create(given, supply[i]);
      TakenExactly(old(store.records), supply[..i], before, supply[i]);
      if r.Failure? {
        return false, created;
      }
      NotedGrows(events, RelationshipCreatedEvent, r.value.id, store.audit.events);
      assert supply[..i + 1] == supply[..i] + [supply[i]];
      MadeMoreRelationships(old(store.records), relationships, refs, supply[..i], before, r.value);
      FreshMore(old(store.records), supply, i);
      created := created + 1;
    }
    ok := true;
  }

  lemma GivenStorable(spec: RelationshipSpec, refs: map<string, string>, m: Objects, id: string, given: Relationship)
    requires (forall k :: k in m ==> m[k].id == k) && Ready(m, refs, spec) && IsUuid(id)
    requires given == Relationship("", Resolve(refs, spec.source), Resolve(refs, spec.target), spec.kind, "", spec.author,
                                   spec.description)
    ensures CreatableRelationship(given, id) && EndpointsLoad(m, given)
  {
    hide IsUuid, IsVersion;
  }

  lemma MadeMoreRelationships(before: Relationships, relationships: seq<RelationshipSpec>, refs: map<string, string>,
                              ids: seq<string>, m: Relationships, r: Relationship)
    requires MadeRelationships(before, relationships, refs, ids, m) && |ids| < |relationships|
    requires ValidRelationship(r) && r.id !in m && MadeRelationship(relationships[|ids|], refs, r)
    ensures MadeRelationships(before, relationships, refs, ids + [r.id], m[r.id := r])
  {
    hide ValidRelationship, Extends;
    MadeThere(before, ids, m);
    ExtendsMore(before, ids, m, r.id, r);
  }

  /** What a batch does with the identifiers the generator gives: supply for the objects and then
      relationshipSupply for the relationships. A request with findings changes nothing. A sound one makes its
      objects, and when all are made the relationships between the objects its references stand for, up to the
      first identifier that is taken; so it is carried out completely exactly if the identifiers are fresh. */
  ghost predicate Executed(before: Stores, objects: seq<ObjectSpec>, relationships: seq<RelationshipSpec>,
                           supply: seq<string>, relationshipSupply: seq<string>, ok: bool, objectsCreated: nat,
                           relationshipsCreated: nat, after: Stores)
    requires |supply| == |objects| && |relationshipSupply| == |relationships|
  {
    && (ok <==> Sound(objects, relationships, before.objects) && Fresh(before.objects, supply)
                && Fresh(before.relationships, relationshipSupply))
    && (ok ==> objectsCreated == |objects| && relationshipsCreated == |relationships|)
    && if !Sound(objects, relationships, before.objects) then
         objectsCreated == 0 && relationshipsCreated == 0 && after == before
       else
         && FreshUpTo(before.objects, supply, objectsCreated)
         && MadeObjects(before.objects, objects, supply[..objectsCreated], after.objects)
         && if objectsCreated < |objects| then relationshipsCreated == 0 && after.relationships == before.relationships
            else
              && FreshUpTo(before.relationships, relationshipSupply, relationshipsCreated)
              && exists refs :: Resolves(refs, objects, supply)
                   && MadeRelationships(before.relationships, relationships, refs,
                                        relationshipSupply[..relationshipsCreated], after.relationships)
  }

  /** A batch of one object with a name and a fresh identifier makes it. */
  lemma OneObject(before: Stores, spec: ObjectSpec, id: string, ok: bool, objectsCreated: nat,
                  relationshipsCreated: nat, after: Stores)
    requires spec.name != "" && id !in before.objects
    requires Executed(before, [spec], [], [id], [], ok, objectsCreated, relationshipsCreated, after)
    ensures ok && id in after.objects && MadeObject(spec, after.objects[id])
  {
    hide ValidObject, Resolves, MadeRelationships;
    var ids := [id];
    assert ids[0] in ids && ids[..1] == ids;
    assert Sound([spec], [], before.objects);
  }

  method ExecuteBatchCreate(objects: seq<ObjectSpec>, relationships: seq<RelationshipSpec>, supply: seq<string>,
                            relationshipSupply: seq<string>, objectStore: S.ObjectStore, store: S.RelationshipStore)
    returns (ok: bool, objectsCreated: nat, relationshipsCreated: nat)
    requires store.objects == objectStore && store.audit == objectStore.audit && Keyed(store.Contents())
    requires |supply| == |objects| && |relationshipSupply| == |relationships|
    requires Uuids(supply) && Uuids(relationshipSupply)
    modifies objectStore`records, store`records, store.audit
    ensures Executed(old(store.Contents()), objects, relationships, supply, relationshipSupply, ok, objectsCreated,
                     relationshipsCreated, store.Contents())
    ensures Keyed(store.Contents()) && Grew(old(store.audit.events), store.audit.events)
    ensures KeyedEvents(old(store.audit.events)) ==> KeyedEvents(store.audit.events)
  {
    hide Sound, IsUuid, IsVersion, Resolves, Fresh, MadeRelationship, MadeObject, ValidObject, ValidRelationship;
    objectsCreated, relationshipsCreated := 0, 0;
    var findings := ValidateBatchCreate(objects, relationships, objectStore);
    if findings != [] {
      return false, 0, 0;
    }
    SoundParts(objects, relationships, objectStore.records);
    ghost var before := objectStore.records;
    var refs;
    ok, objectsCreated, refs := CreateObjects(objects, supply, objectStore);
    FreshAll(before, supply, objectsCreated);
    MadeKeyed(before, objects, supply[..objectsCreated], objectStore.records);
    if !ok { return; }
    assert supply[..objectsCreated] == supply;
    forall r | r in relationships ensures Ready(objectStore.records, refs, r) {
      EndpointsReady(objects, before, refs, supply, objectStore.records, r);
    }
    hide MadeObjects, Joins, Ready;
    ok, relationshipsCreated := CreateRelationships(relationships, refs, relationshipSupply, store);
    FreshAll(old(store.records), relationshipSupply, relationshipsCreated);
    MadeRelationshipsKeyed(old(store.records), relationships, refs, relationshipSupply[..relationshipsCreated],
                           store.records);
  }

  lemma MadeKeyed(before: Objects, objects: seq<ObjectSpec>, ids: seq<string>, after: Objects)
    requires MadeObjects(before, objects, ids, after) && forall id :: id in before ==> before[id].id == id
    ensures forall id :: id in after ==> after[id].id == id
  {
    hide ValidObject, MadeObject;
  }

  lemma MadeRelationshipsKeyed(before: Relationships, relationships: seq<RelationshipSpec>, refs: map<string, string>,
                               ids: seq<string>, after: Relationships)
    requires MadeRelationships(before, relationships, refs, ids, after)
    requires forall id :: id in before ==> before[id].id == id
    ensures forall id :: id in after ==> after[id].id == id
  {
    hide ValidRelationship, MadeRelationship;
  }

  lemma SoundParts(objects: seq<ObjectSpec>, relationships: seq<RelationshipSpec>, m: Objects)
    requires Sound(objects, relationships, m)
    ensures DistinctRefs(objects) && Named(objects)
    ensures forall r :: r in relationships ==> Joins(m, Refs(objects), r)
  {
  }

  ghost predicate AllLoad(s: Stores, ids: seq<string>, relationshipIds: seq<string>) {
    && (forall id :: id in ids ==> Loads(s.objects, id))
    && (forall id :: id in relationshipIds ==> LoadsRelationship(s.relationships, id))
  }

  function Without<T>(m: map<string, T>, ids: seq<string>): map<string, T> {
    m - set id | id in ids
  }

  /** Removing one by one, until one is not there: how many were removed, and what is left. */
  function DeleteAll<T>(m: map<string, T>, ids: seq<string>): (r: (nat, map<string, T>))
    ensures r.0 <= |ids|
  {
    if ids == [] || ids[0] !in m then (0, m)
    else
      var (k, n) := DeleteAll(m - {ids[0]}, ids[1..]);
      (k + 1, n)
  }

  /** What a batch deletion does once everything listed has been found: the numbers of objects and relationships
      deleted, and what is left. The relationships go first. */
  function DeleteBoth(s: Stores, ids: seq<string>, relationshipIds: seq<string>): (r: (nat, nat, Stores)) {
    var (k, relationships) := DeleteAll(s.relationships, relationshipIds);
    if k < |relationshipIds| then (0, k, s.(relationships := relationships))
    else
      var (n, objects) := DeleteAll(s.objects, ids);
      (n, k, Stores(objects, relationships))
  }

  /** Of identifiers that are all there, those before the first repetition are removed. */
  lemma {:induction false} DeleteAllStops<T>(m: map<string, T>, ids: seq<string>, gone: set<string>)
    requires forall id :: id in ids ==> id in m || id in gone
    requires forall id :: id in gone ==> id !in m
    ensures var (k, n) := DeleteAll(m, ids);
            && n == Without(m, ids[..k]) && NoDuplicates(ids[..k]) && (forall id :: id in ids[..k] ==> id !in gone)
            && (k < |ids| ==> ids[k] in ids[..k] || ids[k] in gone)
    decreases |ids|
  {
    if ids == [] || ids[0] !in m {
      assert ids[..0] == [];
      assert Without(m, []) == m;
    } else {
      DeleteAllStops(m - {ids[0]}, ids[1..], gone + {ids[0]});
      var k := DeleteAll(m - {ids[0]}, ids[1..]).0;
      assert ids[..k + 1] == [ids[0]] + ids[1..][..k];
      assert Without(m - {ids[0]}, ids[1..][..k]) == Without(m, ids[..k + 1]);
    }
  }

  /** Nothing is left half done: all that is listed is removed and this is reported, or nothing is changed. */
  ghost predicate AllOrNothing(s: Stores, ids: seq<string>, relationshipIds: seq<string>, ok: bool, t: Stores) {
    t == if ok then Stores(Without(s.objects, ids), Without(s.relationships, relationshipIds)) else s
  }

  /** A batch deletion. */
  ghost predicate Deleted(s: Stores, ids: seq<string>, relationshipIds: seq<string>, ok: bool, objectsDeleted: nat,
                          relationshipsDeleted: nat, t: Stores) {
    if !AllLoad(s, ids, relationshipIds) then !ok && objectsDeleted == 0 && relationshipsDeleted == 0 && t == s
    else
      && (objectsDeleted, relationshipsDeleted, t) == DeleteBoth(s, ids, relationshipIds)
      && (ok <==> objectsDeleted == |ids| && relationshipsDeleted == |relationshipIds|)
  }

  /** It removes everything exactly if everything is there and nothing listed twice, and leaves nothing half done
      exactly if something is missing or nothing is listed twice. Of a list with a repetition, what comes before it
      is gone. */
  lemma DeletionExact(s: Stores, ids: seq<string>, relationshipIds: seq<string>, ok: bool, objectsDeleted: nat,
                      relationshipsDeleted: nat, t: Stores)
    requires Deleted(s, ids, relationshipIds, ok, objectsDeleted, relationshipsDeleted, t)
    ensures ok <==> AllLoad(s, ids, relationshipIds) && NoDuplicates(ids) && NoDuplicates(relationshipIds)
    ensures AllOrNothing(s, ids, relationshipIds, ok, t)
            <==> !AllLoad(s, ids, relationshipIds) || (NoDuplicates(ids) && NoDuplicates(relationshipIds))
    ensures objectsDeleted <= |ids| && relationshipsDeleted <= |relationshipIds|
    ensures t == Stores(Without(s.objects, ids[..objectsDeleted]),
                        Without(s.relationships, relationshipIds[..relationshipsDeleted]))
    ensures AllLoad(s, ids, relationshipIds) && relationshipsDeleted < |relationshipIds| ==>
              objectsDeleted == 0 && relationshipIds[relationshipsDeleted] in relationshipIds[..relationshipsDeleted]
    ensures AllLoad(s, ids, relationshipIds) && relationshipsDeleted == |relationshipIds| && objectsDeleted < |ids| ==>
              ids[objectsDeleted] in ids[..objectsDeleted]
  {
    hide ValidObject, ValidRelationship, DeleteAll;
    assert ids[..|ids|] == ids && relationshipIds[..|relationshipIds|] == relationshipIds;
    assert Without(s.objects, ids[..0]) == s.objects && Without(s.relationships, relationshipIds[..0]) == s.relationships;
    if AllLoad(s, ids, relationshipIds) {
      DeleteAllStops(s.objects, ids, {});
      DeleteAllStops(s.relationships, relationshipIds, {});
      RepetitionShows(ids, DeleteAll(s.objects, ids).0);
      RepetitionShows(relationshipIds, DeleteAll(s.relationships, relationshipIds).0);
      if relationshipsDeleted < |relationshipIds| {
        assert relationshipIds[0] in relationshipIds[..relationshipsDeleted];
        assert relationshipIds[0] in s.relationships && relationshipIds[0] !in t.relationships;
      } else if objectsDeleted < |ids| {
        assert ids[0] in ids[..objectsDeleted];
        assert ids[0] in s.objects && ids[0] !in t.objects;
      }
    }
  }

  lemma RepetitionShows(ids: seq<string>, k: nat)
    requires k <= |ids| && (k < |ids| ==> ids[k] in ids[..k])
    ensures k < |ids| ==> !NoDuplicates(ids) && k > 0
  {
  }

  /** An object listed twice is gone although the deletion reports a failure. */
  lemma RepeatedIdentifier(s: Stores, x: string, ok: bool, objectsDeleted: nat, relationshipsDeleted: nat, t: Stores)
    requires Loads(s.objects, x) && Deleted(s, [x, x], [], ok, objectsDeleted, relationshipsDeleted, t)
    ensures !ok && objectsDeleted == 1 && t == s.(objects := s.objects - {x})
  {
    hide ValidObject, DeleteAll;
    DeleteAllOnce(s.objects, x);
    assert DeleteAll(s.relationships, []) == (0, s.relationships) by { DeleteNothing(s.relationships); }
  }

  lemma DeleteNothing<T>(m: map<string, T>)
    ensures DeleteAll(m, []) == (0, m)
  {
  }

  lemma DeleteAllOnce<T>(m: map<string, T>, x: string)
    requires x in m
    ensures DeleteAll(m, [x, x]) == (1, m - {x})
  {
    assert [x, x][1..] == [x];
  }

  method ExecuteBatchDelete(ids: seq<string>, relationshipIds: seq<string>, objectStore: S.ObjectStore,
                            store: S.RelationshipStore)
    returns (ok: bool, objectsDeleted: nat, relationshipsDeleted: nat)
    requires store.objects == objectStore && store.audit == objectStore.audit
    modifies objectStore`records, store`records, store.audit
    ensures Deleted(old(store.Contents()), ids, relationshipIds, ok, objectsDeleted, relationshipsDeleted,
                    store.Contents())
    ensures Grew(old(store.audit.events), store.audit.events)
    ensures KeyedEvents(old(store.audit.events)) ==> KeyedEvents(store.audit.events)
  {
    hide ValidObject, ValidRelationship, DeleteAll;
    objectsDeleted, relationshipsDeleted := 0, 0;
    var missing := false;
    for i := 0 to |ids|
      invariant missing <==> exists k :: 0 <= k < i && !Loads(objectStore.records, ids[k])
    {
      if objectStore.Load(ids[i]).Failure? {
        missing := true;
      }
    }
    for i := 0 to |relationshipIds|
      invariant missing <==> (exists k :: 0 <= k < |ids| && !Loads(objectStore.records, ids[k]))
                             || exists k :: 0 <= k < i && !LoadsRelationship(store.records, relationshipIds[k])
    {
      if store.Load(relationshipIds[i]).Failure? {
        missing := true;
      }
    }
    if missing {
      return false, 0, 0;
    }
    ok, relationshipsDeleted := DeleteRelationships(relationshipIds, store);
    if !ok {
      return;
    }
    ok, objectsDeleted := DeleteObjects(ids, objectStore);
  }

  method DeleteRelationships(ids: seq<string>, store: S.RelationshipStore) returns (ok: bool, deleted: nat)
    modifies store`records, store.audit
    ensures (deleted, store.records) == DeleteAll(old(store.records), ids) && (ok <==> deleted == |ids|)
    ensures Grew(old(store.audit.events), store.audit.events)
    ensures KeyedEvents(old(store.audit.events)) ==> KeyedEvents(store.audit.events)
  {
    hide Noted;
    deleted := 0;
    for i := 0 to |ids|
      invariant deleted == i
      invariant var (k, n) := DeleteAll(store.records, ids[i..]);
                DeleteAll(old(store.records), ids) == (i + k, n)
      invariant Grew(old(store.audit.events), store.audit.events)
      invariant KeyedEvents(old(store.audit.events)) ==> KeyedEvents(store.audit.events)
    {
      assert ids[i..][1..] == ids[i + 1..];
      ghost var events := store.audit.events;
      var removed := store.Remove(ids[i]);
      if !removed {
        return false, deleted;
      }
      NotedGrows(events, RelationshipDeletedEvent, ids[i], store.audit.events);
      deleted := deleted + 1;
    }
    ok := true;
  }

  method DeleteObjects(ids: seq<string>, store: S.ObjectStore) returns (ok: bool, deleted: nat)
    modifies store`records, store.audit
    ensures (deleted, store.records) == DeleteAll(old(store.records), ids) && (ok <==> deleted == |ids|)
    ensures Grew(old(store.audit.events), store.audit.events)
    ensures KeyedEvents(old(store.audit.events)) ==> KeyedEvents(store.audit.events)
  {
    hide Noted;
    deleted := 0;
    for i := 0 to |ids|
      invariant deleted == i
      invariant var (k, n) := DeleteAll(store.records, ids[i..]);
                DeleteAll(old(store.records), ids) == (i + k, n)
      invariant Grew(old(store.audit.events), store.audit.events)
      invariant KeyedEvents(old(store.audit.events)) ==> KeyedEvents(store.audit.events)
    {
      assert ids[i..][1..] == ids[i + 1..];
      ghost var events := store.audit.events;
      var removed := store.Remove(ids[i]);
      if !removed {
        return false, deleted;
      }
      NotedGrows(events, ObjectDeletedEvent, ids[i], store.audit.events);
      deleted := deleted + 1;
    }
    ok := true;
  }
}
