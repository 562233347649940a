/** Reconstructing a repository from an export archive. */
module Importer {
  import opened Options
  import opened Records
  import opened StoreModel
  import opened Sequences
  import opened Listing
  import opened JsonValue
  import opened JsonWriter
  import opened JsonRoundTrip
  import opened ArchiveCodec
  import opened Archive
  import opened Repositories
  import opened Sorting
  import Journal
  import Registry
  import S = Stores

  /** Restoring the records one by one, until one is refused. */
  ghost function RestoreAll<T>(m: map<string, T>, list: seq<T>, id: T -> string, valid: T -> bool): Change<map<string, T>>
    decreases |list|
  {
    if list == [] then Change(true, m)
    else if valid(list[0]) && id(list[0]) !in m then RestoreAll(m[id(list[0]) := list[0]], list[1..], id, valid)
    else Change(false, m)
  }

  type Packages = map<string, PackageManifest>

  /** What an import restores. */
  datatype Restored = Restored(stores: Stores, events: Events, packages: Packages)

  /** The package files, written one by one; a later manifest replaces an earlier one of the same identifier. */
  function Filed(packages: seq<PackageManifest>): Packages {
    if packages == [] then map[]
    else
      var last := packages[|packages| - 1];
      Filed(packages[..|packages| - 1])[last.id := last]
  }

  /** The restore loops, on an empty repository: each starts only when the one before it is through. */
  ghost function RestoreContent(c: Content): Change<Restored> {
    var o := RestoreAll(map[], c.objects, ObjectId, ValidObject);
    if !o.done then Change(false, Restored(Stores(o.after, map[]), map[], map[]))
    else
      var r := RestoreAll(map[], c.relationships, RelationshipId, Storable(o.after));
      if !r.done then Change(false, Restored(Stores(o.after, r.after), map[], map[]))
      else
        var e := RestoreAll(map[], c.events, EventId, ValidAuditEvent);
        if !e.done then Change(false, Restored(Stores(o.after, r.after), e.after, map[]))
        else Change(true, Restored(Stores(o.after, r.after), e.after, Filed(c.packages)))
  }

  ghost function Storable(objects: Objects): Relationship -> bool {
    (r: Relationship) => ValidRelationship(r) && EndpointsLoad(objects, r)
  }

  ghost predicate AllValid<T(!new)>(list: seq<T>, valid: T -> bool) {
    forall x :: x in list ==> valid(x)
  }

  /** The identifiers are new and distinct. */
  ghost predicate NewIds<T(!new)>(m: map<string, T>, list: seq<T>, id: T -> string) {
    && (forall i, j :: 0 <= i < j < |list| ==> id(list[i]) != id(list[j]))
    && (forall x :: x in list ==> id(x) !in m)
  }

  /** The records are all restored exactly if they are valid and their identifiers new and distinct, and then exactly
      these are added. */
  lemma {:induction false} RestoreAllAdds<T(!new)>(m: map<string, T>, list: seq<T>, id: T -> string, valid: T -> bool)
    ensures var r := RestoreAll(m, list, id, valid);
            && (r.done <==> AllValid(list, valid) && NewIds(m, list, id))
            && (r.done ==> (forall k :: k in r.after <==> k in m || exists x :: x in list && id(x) == k)
                           && (forall k :: k in m ==> r.after[k] == m[k])
                           && forall x :: x in list ==> r.after[id(x)] == x)
    decreases |list|
  {
    if list != [] {
      assert list == [list[0]] + list[1..];
      assert list[0] in list;
      if valid(list[0]) && id(list[0]) !in m {
        RestoreAllAdds(m[id(list[0]) := list[0]], list[1..], id, valid);
        NewIdsSplit(m, list, id);
        hide NewIds;
      }
    }
  }

  lemma NewIdsSplit<T(!new)>(m: map<string, T>, list: seq<T>, id: T -> string)
    requires list != [] && id(list[0]) !in m
    ensures NewIds(m, list, id) <==> NewIds(m[id(list[0]) := list[0]], list[1..], id)
  {
    assert list == [list[0]] + list[1..];
    if NewIds(m, list, id) {
      forall x | x in list[1..] ensures id(x) != id(list[0]) {
        var i :| 0 <= i < |list[1..]| && list[1..][i] == x;
        assert list[i + 1] == x;
      }
    } else if NewIds(m[id(list[0]) := list[0]], list[1..], id) {
      forall i, j | 0 <= i < j < |list| ensures id(list[i]) != id(list[j]) {
        assert list[j] == list[1..][j - 1] && list[j] in list[1..];
        assert i > 0 ==> list[i] == list[1..][i - 1];
      }
    }
  }

  /** A restore that does not get through has restored the records before the one that is refused. */
  lemma {:induction false} RestoreAllStops<T(!new)>(m: map<string, T>, list: seq<T>, id: T -> string, valid: T -> bool)
    returns (k: nat)
    requires !RestoreAll(m, list, id, valid).done
    ensures k < |list|
    ensures RestoreAll(m, list[..k], id, valid) == Change(true, RestoreAll(m, list, id, valid).after)
    ensures !valid(list[k]) || id(list[k]) in RestoreAll(m, list, id, valid).after
    decreases |list|
  {
    k := 0;
    if valid(list[0]) && id(list[0]) !in m {
      k := RestoreAllStops(m[id(list[0]) := list[0]], list[1..], id, valid);
      k := k + 1;
      assert list[..k][1..] == list[1..][..k - 1];
    }
  }

  /** What the importer needs of an archive beyond what it checks before it writes. */
  ghost predicate Restorable(c: Content) {
    && AllValid(c.objects, ValidObject) && NewIds(map[], c.objects, ObjectId)
    && AllValid(c.relationships, ValidRelationship) && NewIds(map[], c.relationships, RelationshipId)
    && (forall r :: r in c.relationships ==> Among(c.objects, r.source) && Among(c.objects, r.target))
    && AllValid(c.events, ValidAuditEvent) && NewIds(map[], c.events, EventId)
  }

  ghost predicate Among(objects: seq<EngineeringObject>, id: string) {
    exists o :: o in objects && o.id == id
  }

  lemma RestorableExactly(c: Content)
    ensures RestoreContent(c).done <==> Restorable(c)
  {
    RestoreAllAdds(map[], c.objects, ObjectId, ValidObject);
    RestoreAllAdds(map[], c.events, EventId, ValidAuditEvent);
    var o := RestoreAll(map[], c.objects, ObjectId, ValidObject);
    RestoreAllAdds(map[], c.relationships, RelationshipId, Storable(o.after));
    hide RestoreAll, NewIds, ValidObject, ValidRelationship, ValidAuditEvent;
    if o.done {
      StorableAmong(c, o.after);
    }
  }

  lemma StorableAmong(c: Content, objects: Objects)
    requires AllValid(c.objects, ValidObject)
    requires forall k :: k in objects <==> exists x :: x in c.objects && ObjectId(x) == k
    requires forall x :: x in c.objects ==> objects[ObjectId(x)] == x
    ensures AllValid(c.relationships, Storable(objects))
            <==> AllValid(c.relationships, ValidRelationship)
                 && forall r :: r in c.relationships ==> Among(c.objects, r.source) && Among(c.objects, r.target)
  {
    hide ValidObject, ValidRelationship;
    forall id ensures Loads(objects, id) <==> Among(c.objects, id) {
      if Among(c.objects, id) {
        var x :| x in c.objects && x.id == id;
        assert ObjectId(x) == id;
      }
    }
    hide Loads, Among;
    forall r ensures Storable(objects)(r)
                     <==> ValidRelationship(r) && Among(c.objects, r.source) && Among(c.objects, r.target) {
    }
    hide Storable;
  }

  /** Restoring a listing of a store into an empty one gives the store back. */
  lemma RestoreListing<T(!new)>(list: seq<T>, m: map<string, T>, id: T -> string, valid: T -> bool)
    requires Lists(list, m, id) && forall k :: k in m ==> id(m[k]) == k
    ensures RestoreAll(map[], list, id, valid).done <==> forall k :: k in m ==> valid(m[k])
    ensures RestoreAll(map[], list, id, valid).done ==> RestoreAll(map[], list, id, valid).after == m
  {
    forall i, j | 0 <= i < j < |list| ensures id(list[i]) != id(list[j]) {
      assert list[i] in list && list[j] in list;
    }
    RestoreAllAdds(map[], list, id, valid);
    hide RestoreAll;
    assert NewIds(map[], list, id);
    forall k | k in m ensures m[k] in list && id(m[k]) == k {
    }
    var r := RestoreAll(map[], list, id, valid);
    if r.done {
      assert r.after.Keys == m.Keys;
      assert r.after == m;
    }
  }

  lemma {:induction false} FiledDistinct(packages: seq<PackageManifest>)
    requires DistinctPackages(packages)
    ensures forall id :: id in Filed(packages) <==> exists p :: p in packages && p.id == id
    ensures forall p :: p in packages ==> p.id in Filed(packages) && Filed(packages)[p.id] == p
  {
    if packages != [] {
      var n := |packages| - 1;
      FiledDistinct(packages[..n]);
      assert packages == packages[..n] + [packages[n]];
      forall p | p in packages[..n] ensures p.id != packages[n].id {
      }
    }
  }

  /** All of the repository is such that an import accepts it. */
  ghost predicate Importable(stores: Stores, events: Events) {
    && (forall k :: k in stores.objects ==> ValidObject(stores.objects[k]))
    && (forall k :: k in stores.relationships ==> ValidRelationship(stores.relationships[k])
                                                  && EndpointsLoad(stores.objects, stores.relationships[k]))
    && (forall k :: k in events ==> ValidAuditEvent(events[k]))
  }

  /** Importing what was exported succeeds exactly when every record is valid and both endpoints of every
      relationship are there, and then reproduces every object, relationship and audit event. */
  lemma RestoreExported(c: Content, stores: Stores, events: Events, packages: seq<PackageManifest>)
    requires IsContent(c, stores, events, packages) && Keyed(stores) && KeyedEvents(events)
    ensures var r := RestoreContent(c);
            && (r.done <==> Importable(stores, events))
            && (r.done ==> r.after == Restored(stores, events, Filed(c.packages)))
  {
    hide ValidObject, ValidRelationship, ValidAuditEvent, EndpointsLoad, Filed;
    RestoreListing(c.objects, stores.objects, ObjectId, ValidObject);
    RestoreListing(c.relationships, stores.relationships, RelationshipId, Storable(stores.objects));
    RestoreListing(c.events, events, EventId, ValidAuditEvent);
  }

  method RestoreObjects(store: S.ObjectStore, list: seq<EngineeringObject>) returns (ok: bool)
    modifies store`records
    ensures RestoreAll(old(store.records), list, ObjectId, ValidObject) == Change(ok, store.records)
  {
    hide ValidObject;
    for i := 0 to |list|
      invariant RestoreAll(store.records, list[i..], ObjectId, ValidObject)
                == RestoreAll(old(store.records), list, ObjectId, ValidObject)
    {
      assert list[i..][1..] == list[i + 1..];
      var r := store.Restore(list[i]);
      if r.Failure? {
        return false;
      }
    }
    ok := true;
  }

  method RestoreRelationships(store: S.RelationshipStore, list: seq<Relationship>) returns (ok: bool)
    modifies store`records
    ensures RestoreAll(old(store.records), list, RelationshipId, Storable(store.objects.records))
            == Change(ok, store.records)
  {
    hide ValidRelationship, EndpointsLoad;
    for i := 0 to |list|
      invariant RestoreAll(store.records, list[i..], RelationshipId, Storable(store.objects.records))
                == RestoreAll(old(store.records), list, RelationshipId, Storable(store.objects.records))
    {
      assert list[i..][1..] == list[i + 1..];
      var r := store.Restore(list[i]);
      if r.Failure? {
        return false;
      }
    }
    ok := true;
  }

  method RestoreEvents(store: S.AuditStore, list: seq<AuditEvent>) returns (ok: bool)
    modifies store
    ensures RestoreAll(old(store.events), list, EventId, ValidAuditEvent) == Change(ok, store.events)
  {
    hide ValidAuditEvent;
    for i := 0 to |list|
      invariant RestoreAll(store.events, list[i..], EventId, ValidAuditEvent)
                == RestoreAll(old(store.events), list, EventId, ValidAuditEvent)
    {
      assert list[i..][1..] == list[i + 1..];
      var r := store.Restore(list[i]);
      if r.Failure? {
        return false;
      }
    }
    ok := true;
  }

  /** Everything in a repository directory. */
  datatype Disk = Disk(
    metadata: Option<RepositoryMetadata>,
    content: Restored,
    entries: map<string, Registry.RegistryEntry>,
    records: map<string, Journal.TransactionRecord>)

  ghost function OnDisk(r: Repository): Disk
    reads r, r.Parts()
  {
    Disk(r.metadata, Restored(r.Contents(), r.audit.events, r.packages), r.registry.entries, r.journal.records)
  }

  /** What importing a decoded archive leaves, at the time modified: nothing of what was there before, and as much of
      the archive as could be restored. */
  ghost function AfterImport(archive: Decoded, modified: string): Disk
    requires archive.Decoded?
  {
    Disk(Some(archive.metadata.(modified := modified)), RestoreContent(archive.content).after, map[], map[])
  }

  /** What an import does. A refused archive, or one for a place that is taken, leaves the destination alone. */
  ghost predicate Imported(archive: Decoded, before: Disk, occupied: bool, overwrite: bool, ok: bool, after: Disk) {
    if archive.Refused? || (occupied && !overwrite) then !ok && after == before
    else
      && (ok <==> RestoreContent(archive.content).done)
      && exists modified :: modified != "" && after == AfterImport(archive, modified)
  }

  /** The same, up to the time of the last modification. */
  ghost predicate SameDisk(a: Disk, b: Disk) {
    && b == a.(metadata := b.metadata)
    && (a.metadata.Some? <==> b.metadata.Some?)
    && (a.metadata.Some? ==> b.metadata.value == a.metadata.value.(modified := b.metadata.value.modified))
  }

  /** An import succeeds exactly if the archive decodes, the place is free or may be overwritten, and every record can
      be restored. It reproduces the archive or leaves the destination alone exactly if it is refused before it
      starts or every record can be restored; otherwise the destination only looks untouched if it already held what
      the failed import leaves. */
  lemma ImportExact(archive: Decoded, before: Disk, occupied: bool, overwrite: bool, ok: bool, after: Disk)
    requires Imported(archive, before, occupied, overwrite, ok, after)
    ensures ok <==> archive.Decoded? && (!occupied || overwrite) && Restorable(archive.content)
    ensures ok || SameDisk(before, after)
            <==> archive.Refused? || (occupied && !overwrite) || Restorable(archive.content)
                 || exists modified :: before == AfterImport(archive, modified)
  {
    hide RestoreContent, Restorable;
    if archive.Decoded? {
      RestorableExactly(archive.content);
      if !(occupied && !overwrite) {
        var modified :| after == AfterImport(archive, modified);
        if SameDisk(before, after) {
          assert before == AfterImport(archive, before.metadata.value.modified);
        }
      }
    }
  }

  /** Everything is decoded and checked first, so a corrupt archive never touches the destination. A failure while
      restoring does: what was there before is gone. */
  method ImportRepository(f: NumberFormat, text: string, destination: Repository, occupied: bool, overwrite: bool)
    returns (ok: bool, archive: Decoded)
    requires destination.Wired() && (!occupied ==> destination.Empty())
    modifies destination, destination.Parts()
    ensures archive == DecodeArchive(f, text)
    ensures Imported(archive, old(OnDisk(destination)), occupied, overwrite, ok, OnDisk(destination))
  {
    hide DecodeArchive, RestoreContent, ValidMetadata;
    archive := ReadArchive(f, text);
    DecodedMetadataValid(f, text);
    ok := RestoreArchive(archive, destination, occupied, overwrite);
  }

  method RestoreArchive(archive: Decoded, destination: Repository, occupied: bool, overwrite: bool) returns (ok: bool)
    requires archive.Decoded? ==> ValidMetadata(archive.metadata)
    requires destination.Wired() && (!occupied ==> destination.Empty())
    modifies destination, destination.Parts()
    ensures Imported(archive, old(OnDisk(destination)), occupied, overwrite, ok, OnDisk(destination))
  {
    hide RestoreContent, IsUuid, IsVersion;
    if archive.Refused? || (occupied && !overwrite) {
      return false;
    }
    if occupied {
      destination.Clear();
    }
    var now := CurrentTimestamp();
    var metadata := archive.metadata.(modified := now);
    if metadata.created == "" {
      metadata := metadata.(created := now);
    }
    if !ValidMetadata(metadata) {
      return false;
    }
    destination.metadata := Some(metadata);
    ok := RestoreRecords(archive.content, destination);
    assert OnDisk(destination) == AfterImport(archive, now);
  }

  method RestoreRecords(c: Content, destination: Repository) returns (ok: bool)
    requires destination.Wired() && OnDisk(destination).content == Restored(Stores(map[], map[]), map[], map[])
    modifies destination`packages, destination.objects, destination.relationships, destination.audit
    ensures RestoreContent(c) == Change(ok, OnDisk(destination).content)
  {
    hide RestoreAll, IsUuid, IsVersion, ValidObject, ValidAuditEvent;
    ok := RestoreObjects(destination.objects, c.objects);
    if !ok { return; }
    ok := RestoreRelationships(destination.relationships, c.relationships);
    if !ok { return; }
    ok := RestoreEvents(destination.audit, c.events);
    if !ok { return; }
    FilePackages(destination, c.packages);
  }

  method FilePackages(destination: Repository, packages: seq<PackageManifest>)
    requires destination.packages == map[]
    modifies destination`packages
    ensures destination.packages == Filed(packages)
  {
    for i := 0 to |packages|
      invariant destination.packages == Filed(packages[..i])
    {
      assert packages[..i + 1][..i] == packages[..i];
      destination.packages := destination.packages[packages[i].id := packages[i]];
    }
    assert packages[..|packages|] == packages;
  }

  lemma DecodedMetadataValid(f: NumberFormat, text: string)
    ensures DecodeArchive(f, text).Decoded? ==> ValidMetadata(DecodeArchive(f, text).metadata)
  {
    hide ValidMetadata, ValidManifest, Section, ManifestFromJson, MetadataFromJson;
  }

  /** The round trip of a whole repository. The one limit besides invalid records and missing endpoints is a count
      that wraps to a negative 32-bit number. */
  lemma ExportThenImport(f: NumberFormat, timestamp: string, metadata: RepositoryMetadata, c: Content, stores: Stores,
                         events: Events, packages: seq<PackageManifest>, withPackages: bool)
    requires Standard(f) && timestamp != "" && ValidMetadata(metadata) && (withPackages || packages == [])
    requires IsContent(c, stores, events, packages) && Keyed(stores) && KeyedEvents(events)
    ensures var manifest := Manifest(timestamp, metadata, c);
            var archive := DecodeArchive(f, Serialize(f, Archive.Document(manifest, metadata, c, withPackages)));
            && (archive.Decoded? <==> CountsFit(manifest))
            && (CountsFit(manifest) ==>
                  && archive == Decoded(manifest, metadata, c)
                  && (RestoreContent(archive.content).done <==> Importable(stores, events))
                  && (RestoreContent(archive.content).done ==>
                        RestoreContent(archive.content).after == Restored(stores, events, Filed(c.packages))))
  {
    NoPackages(c, stores, events, packages);
    hide DecodeArchive, RestoreContent, IsContent, Importable, Standard, CountsFit, Archive.Document;
    DecodeExport(f, timestamp, metadata, c, withPackages);
    RestoreExported(c, stores, events, packages);
  }

  lemma NoPackages(c: Content, stores: Stores, events: Events, packages: seq<PackageManifest>)
    requires IsContent(c, stores, events, packages)
    ensures packages == [] ==> c.packages == []
  {
    SameMembers(c.packages, packages);
  }

  /** An object and a relationship to one that has been deleted. */
  ghost function OrphanedObject(): EngineeringObject {
    EngineeringObject("00000000-0000-4000-8000-000000000001", ObjectType.Document, "kept", "", "2026", "2026", "1.0.0",
                      "", [])
  }

  ghost function OrphanedRelationship(): Relationship {
    Relationship("00000000-0000-4000-8000-000000000003", "00000000-0000-4000-8000-000000000001",
                 "00000000-0000-4000-8000-000000000002", References, "2026", "", "")
  }

  /** A repository that was left with a relationship to a deleted object can be exported, but the import of its
      archive fails half way: it decodes, the object is restored, and the relationship is not. */
  lemma OrphanedExportFails(f: NumberFormat, metadata: RepositoryMetadata)
    requires Standard(f) && ValidMetadata(metadata)
    ensures var o, r := OrphanedObject(), OrphanedRelationship();
            var c := Content([o], [r], [], []);
            && IsContent(c, Stores(map[o.id := o], map[r.id := r]), map[], [])
            && var archive := DecodeArchive(f, Serialize(f,
                 Archive.Document(Manifest("2026", metadata, c), metadata, c, false)));
               && archive.Decoded?
               && RestoreContent(archive.content)
                  == Change(false, Restored(Stores(map[o.id := o], map[]), map[], map[]))
  {
    var c := Content([OrphanedObject()], [OrphanedRelationship()], [], []);
    OrphanedContent(c);
    OrphanedRestore(c);
    hide DecodeArchive, RestoreContent, IsContent, Standard, Archive.Document, OrphanedObject, OrphanedRelationship,
         ValidMetadata, Manifest;
    SmallExportDecodes(f, metadata, c);
  }

  lemma SmallExportDecodes(f: NumberFormat, metadata: RepositoryMetadata, c: Content)
    requires Standard(f) && ValidMetadata(metadata) && |c.objects| == |c.relationships| == 1 && c.packages == []
    ensures var manifest := Manifest("2026", metadata, c);
            DecodeArchive(f, Serialize(f, Archive.Document(manifest, metadata, c, false)))
            == Decoded(manifest, metadata, c)
  {
    assert CountsFit(Manifest("2026", metadata, c));
    hide DecodeArchive, Standard, Archive.Document, ValidMetadata, Manifest, CountsFit;
    DecodeExport(f, "2026", metadata, c, false);
  }

  lemma OrphanedContent(c: Content)
    requires c == Content([OrphanedObject()], [OrphanedRelationship()], [], [])
    ensures var o, r := OrphanedObject(), OrphanedRelationship();
            IsContent(c, Stores(map[o.id := o], map[r.id := r]), map[], [])
  {
    hide LexLess;
  }

  lemma OrphanedIsValid()
    ensures ValidObject(OrphanedObject())
  {
    DefaultVersion();
    hide IsVersion;
  }

  lemma OrphanedRestore(c: Content)
    requires c == Content([OrphanedObject()], [OrphanedRelationship()], [], [])
    ensures var o := OrphanedObject();
            RestoreContent(c) == Change(false, Restored(Stores(map[o.id := o], map[]), map[], map[]))
  {
    OrphanedIsValid();
    hide ValidObject, ValidRelationship;
    var o, r := OrphanedObject(), OrphanedRelationship();
    assert c.objects[1..] == [];
    assert RestoreAll(map[], c.objects, ObjectId, ValidObject) == Change(true, map[o.id := o]);
    assert !Loads(map[o.id := o], r.target);
  }
}
