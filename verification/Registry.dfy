/** The registry of installed packages. */
module Registry {
  import opened Options

  datatype Manifest = Manifest(
    packageId: string,
    version: string,
    title: string,
    summary: string,
    category: string,
    schemaVersion: string,
    domains: seq<string>,
    publisherId: string,
    publisherName: string)

  datatype RegistryEntry = RegistryEntry(
    manifest: Manifest,
    installed: string,
    source: string,
    installationPath: string,
    packageHash: string,
    runtimeState: string,
    trustStatus: string,
    trustFingerprint: string,
    objectIds: seq<string>,
    relationshipIds: seq<string>)

  datatype Owner = Nobody | OwnsObject(entry: RegistryEntry) | OwnsRelationship(entry: RegistryEntry)

  class RepositoryRegistry {
    var entries: map<string, RegistryEntry>

    constructor ()
      ensures entries == map[]
    {
      entries := map[];
    }

    ghost predicate Valid()
      reads this
    {
      forall id :: id in entries ==> entries[id].manifest.packageId == id
    }

    /** writable says whether the file system accepts the write. */
    method RecordInstall(entry: RegistryEntry, writable: bool) returns (ok: bool)
      modifies this
      ensures ok <==> writable && entry.manifest.packageId != "" && entry.manifest.packageId !in old(entries)
      ensures entries == if ok then old(entries)[entry.manifest.packageId := entry] else old(entries)
    {
      var id := entry.manifest.packageId;
      if id == "" || id in entries {
        return false;
      }
      ok := writable;
      if ok {
        entries := entries[id := entry];
      }
    }

    function IsInstalled(packageId: string): Option<RegistryEntry>
      reads this
    {
      if packageId in entries then Some(entries[packageId]) else None
    }

    /** Some package that installed the object or relationship, in whatever order the packages are enumerated. */
    method FindOwner(entityId: string) returns (r: Owner)
      ensures r.Nobody? <==> forall id :: id in entries ==> entityId !in entries[id].objectIds + entries[id].relationshipIds
      ensures r.OwnsObject? ==> r.entry in entries.Values && entityId in r.entry.objectIds
      ensures r.OwnsRelationship? ==> r.entry in entries.Values && entityId in r.entry.relationshipIds
    {
      var left := entries.Keys;
      while left != {}
        invariant left <= entries.Keys
        invariant forall id :: id in entries && id !in left
                    ==> entityId !in entries[id].objectIds + entries[id].relationshipIds
      {
        var id :| id in left;
        var entry := entries[id];
        if entityId in entry.objectIds {
          assert entityId in entries[id].objectIds + entries[id].relationshipIds;
          return OwnsObject(entry);
        }
        if entityId in entry.relationshipIds {
          assert entityId in entries[id].objectIds + entries[id].relationshipIds;
          return OwnsRelationship(entry);
        }
        left := left - {id};
      }
      r := Nobody;
    }
  }
}
