/** What installing a package means for the contents of a repository and its registry. */
module Installs {
  import opened Options
  import opened Records
  import opened Sequences
  import opened StoreModel
  import opened Undo
  import opened Journal
  import opened Transactions
  import opened TrustStates
  import Registry

  /** The content of a package archive, once extracted. */
  datatype Package = Package(
    manifest: Registry.Manifest,
    objects: seq<EngineeringObject>,
    relationships: seq<Relationship>)

  /** What is known of the archive itself before the install begins: its trust, path and hash. */
  datatype Archive = Archive(
    trust: Option<TrustState>,
    fingerprint: string,
    signaturesRequired: bool,
    path: string,
    hash: string)

  /** The identifiers that the generator gives during an install, to each record that comes without one. */
  datatype Supply = Supply(objects: seq<string>, relationships: seq<string>)

  ghost predicate Suffices(supply: Supply, p: Package) {
    && |supply.objects| == |p.objects| && |supply.relationships| == |p.relationships|
    && Uuids(supply.objects) && Uuids(supply.relationships)
  }

  /** Whether the archive may be installed at all. */
  ghost predicate TrustAllows(archive: Archive) {
    archive.trust == Some(Trusted) || (archive.trust == Some(Unsigned) && !archive.signaturesRequired)
  }

  function NewObjectIds(objects: seq<EngineeringObject>, supply: seq<string>): (ids: seq<string>)
    requires |supply| == |objects|
    ensures |ids| == |objects|
  {
    seq(|objects|, i requires 0 <= i < |objects| => NewId(objects[i].id, supply[i]))
  }

  function NewRelationshipIds(relationships: seq<Relationship>, supply: seq<string>): (ids: seq<string>)
    requires |supply| == |relationships|
    ensures |ids| == |relationships|
  {
    seq(|relationships|, i requires 0 <= i < |relationships| => NewId(relationships[i].id, supply[i]))
  }

  ghost predicate ObjectsInstallable(m: Objects, objects: seq<EngineeringObject>, supply: seq<string>)
    requires |supply| == |objects|
  {
    && (forall i :: 0 <= i < |objects| ==> CreatableObject(objects[i], supply[i]))
    && Fresh(m, NewObjectIds(objects, supply))
  }

  /** An endpoint is there if it is already in the repository or comes with the package. */
  predicate Available(m: Objects, ids: seq<string>, id: string) {
    Loads(m, id) || id in ids
  }

  ghost predicate RelationshipsInstallable(s: Stores, objectIds: seq<string>, relationships: seq<Relationship>,
                                           supply: seq<string>)
    requires |supply| == |relationships|
  {
    && (forall i :: 0 <= i < |relationships| ==>
          && CreatableRelationship(relationships[i], supply[i])
          && Available(s.objects, objectIds, relationships[i].source)
          && Available(s.objects, objectIds, relationships[i].target))
    && Fresh(s.relationships, NewRelationshipIds(relationships, supply))
  }

  /** Everything in the package can be created. */
  ghost predicate Installable(s: Stores, p: Package, supply: Supply)
    requires Suffices(supply, p)
  {
    && ObjectsInstallable(s.objects, p.objects, supply.objects)
    && RelationshipsInstallable(s, NewObjectIds(p.objects, supply.objects), p.relationships, supply.relationships)
  }

  /** The first objects of a package are in the store, under their identifiers. */
  ghost predicate HasObjects(m: Objects, objects: seq<EngineeringObject>, supply: seq<string>, n: nat)
    requires n <= |objects| == |supply|
  {
    forall i :: 0 <= i < n ==> var id := NewId(objects[i].id, supply[i]);
                               id in m && ValidObject(m[id]) && FilledObject(objects[i], supply[i], m[id])
  }

  ghost predicate HasRelationships(m: Relationships, relationships: seq<Relationship>, supply: seq<string>, n: nat)
    requires n <= |relationships| == |supply|
  {
    forall i :: 0 <= i < n ==> var id := NewId(relationships[i].id, supply[i]);
                               && id in m && ValidRelationship(m[id])
                               && FilledRelationship(relationships[i], supply[i], m[id])
  }

  /** The registry entry of an install. */
  ghost function Entry(manifest: Registry.Manifest, archive: Archive, now: string, objectIds: seq<string>,
                 relationshipIds: seq<string>): Registry.RegistryEntry
    requires archive.trust.Some?
  {
    Registry.RegistryEntry(manifest, now, "local", archive.path, archive.hash, "Installed",
                           TrustName(archive.trust.value), archive.fingerprint, objectIds, relationshipIds)
  }

  /** The journal tells every creation in order, and last that the package was recorded. */
  ghost predicate TellsInstall(entries: seq<JournalEntry>, packageId: string) {
    && |entries| > 0
    && (exists log :: OnlyCreates(log) && Tells(entries[..|entries| - 1], log))
    && entries[|entries| - 1].operation == "PackageRecorded" && entries[|entries| - 1].target == packageId
  }

  lemma InstallTold(c: TransactionRecord, log: seq<LogEntry>, d: TransactionRecord, packageId: string, before: string,
                    after: string)
    requires OnlyCreates(log) && Tells(c.entries, log)
    requires Appended(c, "PackageRecorded", packageId, before, after, d)
    ensures TellsInstall(d.entries, packageId)
  {
    assert d.entries[..|c.entries|] == c.entries;
  }

  /** What a successful install has done, in one committed transaction. */
  ghost predicate Installed(s: Session, p: Package, archive: Archive, supply: Supply, t: Session)
    requires Suffices(supply, p)
  {
    var id := p.manifest.packageId;
    var objectIds := NewObjectIds(p.objects, supply.objects);
    var relationshipIds := NewRelationshipIds(p.relationships, supply.relationships);
    && id != "" && id !in s.entries && id in t.entries && archive.trust.Some?
    && t.entries == s.entries[id := Entry(p.manifest, archive, t.entries[id].installed, objectIds, relationshipIds)]
    && Extends(s.contents.objects, objectIds, t.contents.objects)
    && HasObjects(t.contents.objects, p.objects, supply.objects, |p.objects|)
    && Extends(s.contents.relationships, relationshipIds, t.contents.relationships)
    && HasRelationships(t.contents.relationships, p.relationships, supply.relationships, |p.relationships|)
    && !t.active && t.begun == s.begun + [t.current.id] && t.closed == s.closed + [t.current]
    && t.current.state == Committed && TellsInstall(t.current.entries, id)
    && Written(s.records, t.current, t.records) && Grew(s.events, t.events)
  }

  /** What a failed install leaves: everything in the repository but the audit log and the journal as it was. */
  ghost predicate NotInstalled(s: Session, t: Session) {
    || t == s
    || (t.contents == s.contents
        && exists log :: OnlyCreates(log) && ClosedOne(s, RolledBackState, log, t))
  }

  /** While a package is installed, its first n objects and k relationships have been created. */
  ghost predicate Installing(b: Session, p: Package, supply: Supply, n: nat, k: nat, m: Session)
    requires Suffices(supply, p) && n <= |p.objects| && k <= |p.relationships|
  {
    && Consistent(m)
    && Creating(b, NewObjectIds(p.objects, supply.objects)[..n],
                NewRelationshipIds(p.relationships, supply.relationships)[..k], m)
    && HasObjects(m.contents.objects, p.objects, supply.objects, n)
    && HasRelationships(m.contents.relationships, p.relationships, supply.relationships, k)
  }

  lemma NothingInstalled(b: Session, p: Package, supply: Supply)
    requires Suffices(supply, p) && Consistent(b)
    ensures Installing(b, p, supply, 0, 0, b)
  {
    CreatingNothing(b);
    assert NewObjectIds(p.objects, supply.objects)[..0] == [];
    assert NewRelationshipIds(p.relationships, supply.relationships)[..0] == [];
  }

  lemma ObjectInstalled(b: Session, p: Package, supply: Supply, n: nat, m: Session, o: EngineeringObject, t: Session)
    requires Suffices(supply, p) && n < |p.objects|
    requires Installing(b, p, supply, n, 0, m) && m.active && Logged(m, ObjectCreated(o), t)
    requires FilledObject(p.objects[n], supply.objects[n], o)
    ensures Installing(b, p, supply, n + 1, 0, t)
  {
    hide Extends, Consistent, Creating, ValidObject, ValidRelationship, NewState;
    LoggedConsistent(m, ObjectCreated(o), t);
    CreatingMore(b, NewObjectIds(p.objects, supply.objects)[..n],
                 NewRelationshipIds(p.relationships, supply.relationships)[..0], m, ObjectCreated(o), t);
    var ids := NewObjectIds(p.objects, supply.objects);
    assert ids[..n + 1] == ids[..n] + [o.id];
  }

  lemma RelationshipInstalled(b: Session, p: Package, supply: Supply, k: nat, m: Session, r: Relationship, t: Session)
    requires Suffices(supply, p) && k < |p.relationships|
    requires Installing(b, p, supply, |p.objects|, k, m) && m.active && Logged(m, RelationshipCreated(r), t)
    requires FilledRelationship(p.relationships[k], supply.relationships[k], r)
    ensures Installing(b, p, supply, |p.objects|, k + 1, t)
  {
    hide Extends, Consistent, Creating, ValidObject, ValidRelationship, EndpointsLoad, NewState;
    LoggedConsistent(m, RelationshipCreated(r), t);
    CreatingMore(b, NewObjectIds(p.objects, supply.objects)[..|p.objects|],
                 NewRelationshipIds(p.relationships, supply.relationships)[..k], m, RelationshipCreated(r), t);
    var ids := NewRelationshipIds(p.relationships, supply.relationships);
    assert ids[..k + 1] == ids[..k] + [r.id];
  }

  /** With n objects installed, the next one is refused exactly if it is not valid or its identifier is taken. */
  lemma NextObject(b: Session, p: Package, supply: Supply, n: nat, m: Session)
    requires Suffices(supply, p) && n < |p.objects| && Installing(b, p, supply, n, 0, m)
    ensures var ids := NewObjectIds(p.objects, supply.objects);
            ids[n] in m.contents.objects <==> ids[n] in b.contents.objects || ids[n] in ids[..n]
    ensures ObjectsInstallable(b.contents.objects, p.objects, supply.objects) ==>
              CreatableObject(p.objects[n], supply.objects[n])
              && NewId(p.objects[n].id, supply.objects[n]) !in m.contents.objects
  {
    hide Consistent, CreatableObject, HasObjects, HasRelationships, NewObjectIds, NewRelationshipIds;
    var ids := NewObjectIds(p.objects, supply.objects);
    assert ids[n] == NewId(p.objects[n].id, supply.objects[n]) by { NewObjectIdAt(p.objects, supply.objects, n); }
    if ObjectsInstallable(b.contents.objects, p.objects, supply.objects) {
      assert ids[n] in ids;
    }
  }

  lemma NewObjectIdAt(objects: seq<EngineeringObject>, supply: seq<string>, i: nat)
    requires i < |objects| == |supply|
    ensures NewObjectIds(objects, supply)[i] == NewId(objects[i].id, supply[i])
  {
  }

  lemma NewRelationshipIdAt(relationships: seq<Relationship>, supply: seq<string>, i: nat)
    requires i < |relationships| == |supply|
    ensures NewRelationshipIds(relationships, supply)[i] == NewId(relationships[i].id, supply[i])
  {
  }

  /** Once all objects are installed, an endpoint loads exactly if it was there or is one of them. */
  lemma InstalledLoads(b: Session, p: Package, supply: Supply, k: nat, m: Session, id: string)
    requires Suffices(supply, p) && k <= |p.relationships| && Installing(b, p, supply, |p.objects|, k, m)
    ensures Loads(m.contents.objects, id)
            <==> Available(b.contents.objects, NewObjectIds(p.objects, supply.objects), id)
  {
    hide Consistent, ValidObject, FilledObject, HasRelationships;
    var ids := NewObjectIds(p.objects, supply.objects);
    assert ids[..|p.objects|] == ids;
    if id in ids {
      var i :| 0 <= i < |ids| && ids[i] == id;
      assert NewId(p.objects[i].id, supply.objects[i]) == id;
    }
  }

  lemma NextRelationship(b: Session, p: Package, supply: Supply, k: nat, m: Session)
    requires Suffices(supply, p) && k < |p.relationships| && Installing(b, p, supply, |p.objects|, k, m)
    ensures var ids := NewRelationshipIds(p.relationships, supply.relationships);
            ids[k] in m.contents.relationships <==> ids[k] in b.contents.relationships || ids[k] in ids[..k]
    ensures EndpointsLoad(m.contents.objects, p.relationships[k])
            <==> Available(b.contents.objects, NewObjectIds(p.objects, supply.objects), p.relationships[k].source)
                 && Available(b.contents.objects, NewObjectIds(p.objects, supply.objects), p.relationships[k].target)
    ensures NewRelationshipIds(p.relationships, supply.relationships)[k]
            == NewId(p.relationships[k].id, supply.relationships[k])
  {
    InstalledLoads(b, p, supply, k, m, p.relationships[k].source);
    InstalledLoads(b, p, supply, k, m, p.relationships[k].target);
    hide Consistent, Available, Loads, HasObjects, HasRelationships, NewObjectIds, NewRelationshipIds;
    NewRelationshipIdAt(p.relationships, supply.relationships, k);
  }

  /** All objects installed were installable. */
  lemma ObjectsWereInstallable(b: Session, p: Package, supply: Supply, m: Session)
    requires Suffices(supply, p) && Installing(b, p, supply, |p.objects|, 0, m)
    ensures ObjectsInstallable(b.contents.objects, p.objects, supply.objects)
  {
    hide Consistent, IsUuid, IsVersion;
    var ids := NewObjectIds(p.objects, supply.objects);
    assert ids[..|p.objects|] == ids;
    forall i | 0 <= i < |p.objects| ensures CreatableObject(p.objects[i], supply.objects[i]) {
      assert FilledObject(p.objects[i], supply.objects[i], m.contents.objects[NewId(p.objects[i].id, supply.objects[i])]);
    }
  }

  lemma RelationshipsWereInstallable(b: Session, p: Package, supply: Supply, m: Session)
    requires Suffices(supply, p) && Installing(b, p, supply, |p.objects|, |p.relationships|, m)
    requires var objectIds := NewObjectIds(p.objects, supply.objects);
             forall i :: 0 <= i < |p.relationships| ==>
               && Available(b.contents.objects, objectIds, p.relationships[i].source)
               && Available(b.contents.objects, objectIds, p.relationships[i].target)
    ensures RelationshipsInstallable(b.contents, NewObjectIds(p.objects, supply.objects), p.relationships,
                                     supply.relationships)
  {
    hide Consistent, IsUuid, IsVersion, Available, HasObjects;
    var ids := NewRelationshipIds(p.relationships, supply.relationships);
    assert ids[..|p.relationships|] == ids;
    forall i | 0 <= i < |p.relationships| ensures CreatableRelationship(p.relationships[i], supply.relationships[i]) {
      var id := NewId(p.relationships[i].id, supply.relationships[i]);
      assert FilledRelationship(p.relationships[i], supply.relationships[i], m.contents.relationships[id]);
    }
  }

  /** With k relationships installed, a next one that is refused was not installable. */
  lemma RefusedRelationship(b: Session, p: Package, supply: Supply, k: nat, m: Session)
    requires Suffices(supply, p) && k < |p.relationships| && Installing(b, p, supply, |p.objects|, k, m)
    requires !CreatableRelationship(p.relationships[k], supply.relationships[k])
             || !EndpointsLoad(m.contents.objects, p.relationships[k])
             || NewId(p.relationships[k].id, supply.relationships[k]) in m.contents.relationships
    ensures !RelationshipsInstallable(b.contents, NewObjectIds(p.objects, supply.objects), p.relationships,
                                      supply.relationships)
  {
    NextRelationship(b, p, supply, k, m);
    hide Installing, Available, EndpointsLoad, CreatableRelationship, NewRelationshipIds, NewObjectIds;
    var ids := NewRelationshipIds(p.relationships, supply.relationships);
    assert ids[k] in ids;
  }

  lemma InstallingKeeps(s: Session, description: string, b: Session, p: Package, supply: Supply, m: Session)
    requires Suffices(supply, p) && Begun(s, description, b)
    requires Installing(b, p, supply, |p.objects|, |p.relationships|, m)
    ensures m.entries == s.entries && OnlyCreates(m.log)
  {
    hide Consistent, Extends, HasObjects, HasRelationships;
    assert m.log[|b.log|..] == m.log;
  }

  /** The registry entry is written and the transaction committed. */
  lemma InstallCompleted(s: Session, description: string, b: Session, p: Package, archive: Archive, supply: Supply,
                         m: Session, r: Session, c: Session, t: Session)
    requires Suffices(supply, p) && Begun(s, description, b) && archive.trust.Some?
    requires Installing(b, p, supply, |p.objects|, |p.relationships|, m)
    requires var id := p.manifest.packageId;
             && id != "" && id !in m.entries && id in r.entries
             && r.entries == m.entries[id := Entry(p.manifest, archive, r.entries[id].installed,
                                                   NewObjectIds(p.objects, supply.objects),
                                                   NewRelationshipIds(p.relationships, supply.relationships))]
             && r == m.(entries := r.entries) && c == r.(current := c.current) && c.current.id == m.current.id
             && TellsInstall(c.current.entries, id) && CommittedTo(c, t)
    ensures Installed(s, p, archive, supply, t)
  {
    hide Consistent, Extends, HasObjects, HasRelationships, TellsInstall, Entry, NewObjectIds, NewRelationshipIds;
    var objectIds := NewObjectIds(p.objects, supply.objects);
    var relationshipIds := NewRelationshipIds(p.relationships, supply.relationships);
    assert objectIds[..|p.objects|] == objectIds && relationshipIds[..|p.relationships|] == relationshipIds;
  }

  /** The package has all it contributed, and its archive, if it is still there, has not changed. */
  ghost predicate Intact(s: Stores, entry: Registry.RegistryEntry, archiveHash: Option<string>) {
    && (forall id :: id in entry.objectIds ==> Loads(s.objects, id))
    && (forall id :: id in entry.relationshipIds ==> LoadsRelationship(s.relationships, id))
    && (archiveHash.None? || entry.installationPath == "" || entry.packageHash == ""
        || archiveHash == Some(entry.packageHash))
  }

  lemma InstalledIntact(s: Session, p: Package, archive: Archive, supply: Supply, t: Session,
                        archiveHash: Option<string>)
    requires Suffices(supply, p) && Installed(s, p, archive, supply, t)
    requires archiveHash.None? || archiveHash == Some(archive.hash)
    ensures p.manifest.packageId in t.entries
    ensures var entry := t.entries[p.manifest.packageId];
            && Intact(t.contents, entry, archiveHash)
            && |entry.objectIds| == |p.objects| && |entry.relationshipIds| == |p.relationships|
  {
    hide ValidObject, ValidRelationship, FilledObject, FilledRelationship, Extends, TellsInstall, Grew;
    var entry := t.entries[p.manifest.packageId];
    forall id | id in entry.objectIds ensures Loads(t.contents.objects, id) {
      var i :| 0 <= i < |p.objects| && id == NewId(p.objects[i].id, supply.objects[i]);
    }
    forall id | id in entry.relationshipIds ensures LoadsRelationship(t.contents.relationships, id) {
      var i :| 0 <= i < |p.relationships| && id == NewId(p.relationships[i].id, supply.relationships[i]);
    }
  }
}
