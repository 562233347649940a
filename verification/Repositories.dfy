/** A repository directory: everything that is on disk, whoever has it open. */
module Repositories {
  import opened Options
  import opened Records
  import opened StoreModel
  import Journal
  import Registry
  import S = Stores

  class Repository {
    const audit: S.AuditStore
    const objects: S.ObjectStore
    const relationships: S.RelationshipStore
    const registry: Registry.RepositoryRegistry
    const journal: Journal.TransactionJournal
    /** The content of repository.json, if there is such a file and it can be parsed. */
    var metadata: Option<RepositoryMetadata>
    /** The manifests under packages/, each in the directory named after its identifier. */
    var packages: map<string, PackageManifest>

    constructor ()
      ensures Valid() && Contents() == Stores(map[], map[]) && metadata == None && packages == map[]
      ensures fresh(audit) && fresh(objects) && fresh(relationships) && fresh(registry) && fresh(journal)
    {
      metadata, packages := None, map[];
      var a := new S.AuditStore();
      var o := new S.ObjectStore(a);
      audit, objects := a, o;
      relationships := new S.RelationshipStore(o, a);
      registry := new Registry.RepositoryRegistry();
      journal := new Journal.TransactionJournal();
    }

    ghost function Contents(): Stores
      reads objects, relationships
    {
      Stores(objects.records, relationships.records)
    }

    ghost predicate Wired() {
      objects.audit == audit && relationships.audit == audit && relationships.objects == objects
    }

    ghost predicate Valid()
      reads objects, relationships, audit, registry
    {
      Wired() && Keyed(Contents()) && KeyedEvents(audit.events) && registry.Valid()
    }

    ghost function Parts(): set<object> {
      {audit, objects, relationships, registry, journal}
    }

    ghost predicate Empty()
      reads this, Parts()
    {
      && metadata == None && Contents() == Stores(map[], map[]) && audit.events == map[]
      && registry.entries == map[] && journal.records == map[] && packages == map[]
    }

    /** The directory is removed and made anew. */
    method Clear()
      modifies this, Parts()
      ensures Empty()
    {
      metadata, packages := None, map[];
      audit.events := map[];
      objects.records := map[];
      relationships.records := map[];
      registry.entries := map[];
      journal.records := map[];
    }

    /** load_metadata succeeds. */
    predicate Loadable()
      reads this
    {
      metadata.Some? && ValidMetadata(metadata.value)
    }
  }
}
