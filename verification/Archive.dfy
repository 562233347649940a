/** Exporting a repository to one JSON document, and reconstructing it from the document. */
module Archive {
  import opened Options
  import opened Records
  import opened StoreModel
  import opened Sorting
  import opened Sequences
  import opened Listing
  import opened JsonValue
  import opened JsonParser
  import opened JsonWriter
  import opened JsonRoundTrip
  import opened Decimals
  import opened ArchiveCodec
  import opened Repositories
  import S = Stores

  const SUPPORTED_VERSION := "1.0"
  const ROOT_KEYS: seq<string> := ["exportManifest", "repositoryMetadata", "objects", "relationships", "auditEvents"]
  const ROOT_KEYS_WITH_PACKAGES: seq<string> := ROOT_KEYS + ["packages"]

  datatype Content = Content(
    objects: seq<EngineeringObject>,
    relationships: seq<Relationship>,
    events: seq<AuditEvent>,
    packages: seq<PackageManifest>)

  predicate ObjectLess(a: EngineeringObject, b: EngineeringObject) {
    LexLess(a.id, b.id)
  }

  predicate RelationshipLess(a: Relationship, b: Relationship) {
    LexLess(a.id, b.id)
  }

  predicate EventLess(a: AuditEvent, b: AuditEvent) {
    if a.timestamp != b.timestamp then LexLess(a.timestamp, b.timestamp) else LexLess(a.id, b.id)
  }

  predicate PackageLess(a: PackageManifest, b: PackageManifest) {
    LexLess(a.id, b.id)
  }

  lemma Orders()
    ensures StrictWeak(ObjectLess) && StrictWeak(RelationshipLess) && StrictWeak(EventLess) && StrictWeak(PackageLess)
  {
    hide LexLess;
    forall a: string, b: string ensures !(LexLess(a, b) && LexLess(b, a)) {
      LexTotal(a, b);
    }
    forall a: string, b: string, c: string | !LexLess(b, a) && !LexLess(c, b) ensures !LexLess(c, a) {
      LexNotLessTransitive(a, b, c);
    }
    forall a: AuditEvent, b: AuditEvent, c: AuditEvent | !EventLess(b, a) && !EventLess(c, b) ensures !EventLess(c, a) {
      EventNotLessTransitive(a, b, c);
    }
  }

  lemma EventNotLessTransitive(a: AuditEvent, b: AuditEvent, c: AuditEvent)
    requires !EventLess(b, a) && !EventLess(c, b)
    ensures !EventLess(c, a)
  {
    hide LexLess;
    LexTotal(a.timestamp, b.timestamp);
    LexTotal(b.timestamp, c.timestamp);
    LexNotLessTransitive(a.timestamp, b.timestamp, c.timestamp);
    if a.timestamp == b.timestamp == c.timestamp {
      LexNotLessTransitive(a.id, b.id, c.id);
    }
  }

  /** What an export writes: every record of the stores and every loaded package once, each section in its natural
      order. */
  ghost predicate IsContent(c: Content, stores: Stores, events: Events, packages: seq<PackageManifest>) {
    && Lists(c.objects, stores.objects, ObjectId) && Sorted(c.objects, ObjectLess)
    && Lists(c.relationships, stores.relationships, RelationshipId) && Sorted(c.relationships, RelationshipLess)
    && Lists(c.events, events, EventId) && Sorted(c.events, EventLess)
    && multiset(c.packages) == multiset(packages) && Sorted(c.packages, PackageLess)
  }

  ghost predicate DistinctPackages(packages: seq<PackageManifest>) {
    forall i, j :: 0 <= i < j < |packages| ==> packages[i].id != packages[j].id
  }

  /** The content is a function of the stores: the order of enumeration leaves no trace. */
  lemma ContentUnique(c: Content, d: Content, stores: Stores, events: Events, packages: seq<PackageManifest>)
    requires IsContent(c, stores, events, packages) && IsContent(d, stores, events, packages)
    requires DistinctPackages(packages)
    ensures c == d
  {
    hide LexLess, StrictWeak, Sorted, Lists;
    Orders();
    forall a: string, b: string ensures a != b ==> LexLess(a, b) || LexLess(b, a) {
      LexTotal(a, b);
    }
    SortedListingUnique(c.objects, d.objects, stores.objects, ObjectId, ObjectLess);
    SortedListingUnique(c.relationships, d.relationships, stores.relationships, RelationshipId, RelationshipLess);
    SortedListingUnique(c.events, d.events, events, EventId, EventLess);
    PackagesComparable(c.packages, packages);
    SortedUnique(c.packages, d.packages, PackageLess);
  }

  lemma PackagesComparable(sorted: seq<PackageManifest>, packages: seq<PackageManifest>)
    requires multiset(sorted) == multiset(packages) && DistinctPackages(packages)
    ensures Comparable(sorted, PackageLess)
  {
    SameMembers(sorted, packages);
    forall x, y | x in sorted && y in sorted ensures x == y || PackageLess(x, y) || PackageLess(y, x) {
      assert x in packages && y in packages;
      LexTotal(x.id, y.id);
    }
  }

  function Encoded<T>(items: seq<T>, encode: T -> Value): (values: seq<Value>)
    ensures |values| == |items|
  {
    seq(|items|, i requires 0 <= i < |items| => encode(items[i]))
  }

  function Manifest(timestamp: string, metadata: RepositoryMetadata, c: Content): ExportManifest {
    ExportManifest(SUPPORTED_VERSION, timestamp, metadata.id, metadata.version,
                   ToInt32(|c.objects|), ToInt32(|c.relationships|), ToInt32(|c.packages|))
  }

  function DocumentValues(manifest: ExportManifest, metadata: RepositoryMetadata, c: Content): (values: seq<Value>)
    ensures |values| == |ROOT_KEYS|
  {
    [ManifestToJson(manifest), MetadataToJson(metadata), Array(Encoded(c.objects, ObjectToJson)),
     Array(Encoded(c.relationships, RelationshipToJson)), Array(Encoded(c.events, EventToJson))]
  }

  /** The section of packages is there only when packages are exported. */
  function Document(manifest: ExportManifest, metadata: RepositoryMetadata, c: Content, withPackages: bool): Value {
    if withPackages then
      Record(ROOT_KEYS_WITH_PACKAGES,
             DocumentValues(manifest, metadata, c) + [Array(Encoded(c.packages, PackageToJson))])
    else Record(ROOT_KEYS, DocumentValues(manifest, metadata, c))
  }

  method EncodeAll<T>(items: seq<T>, encode: T -> Value) returns (v: Value)
    ensures v == Array(Encoded(items, encode))
  {
    var values: seq<Value> := [];
    for i := 0 to |items|
      invariant values == Encoded(items[..i], encode)
    {
      assert items[..i + 1] == items[..i] + [items[i]];
      values := values + [encode(items[i])];
    }
    assert items[..|items|] == items;
    v := Array(values);
  }

  /** The archive is the returned text. loaded are the packages to export, if any are, in the order in which their
      directories are listed. */
  method ExportRepository(f: NumberFormat, metadata: RepositoryMetadata, objects: S.ObjectStore,
                          relationships: S.RelationshipStore, audit: S.AuditStore,
                          loaded: Option<seq<PackageManifest>>)
    returns (text: string, manifest: ExportManifest, ghost c: Content)
    requires Keyed(Stores(objects.records, relationships.records)) && KeyedEvents(audit.events)
    ensures IsContent(c, Stores(objects.records, relationships.records), audit.events,
                      if loaded.Some? then loaded.value else [])
    ensures manifest.timestamp != "" && manifest == Manifest(manifest.timestamp, metadata, c)
    ensures text == Serialize(f, Document(manifest, metadata, c, loaded.Some?))
  {
    hide LexLess, StrictWeak, ValidObject, ValidRelationship, ValidAuditEvent, Encoded, Serialize;
    Orders();
    var listedObjects := ListAll(objects.records, ObjectId);
    var listedRelationships := ListAll(relationships.records, RelationshipId);
    var listedEvents := ListAll(audit.events, EventId);
    var sortedEvents := Sort(listedEvents, EventLess);
    var sortedObjects := Sort(listedObjects, ObjectLess);
    var sortedRelationships := Sort(listedRelationships, RelationshipLess);
    var sortedPackages := Sort(if loaded.Some? then loaded.value else [], PackageLess);
    ListsPermuted(listedObjects, sortedObjects, objects.records, ObjectId);
    ListsPermuted(listedRelationships, sortedRelationships, relationships.records, RelationshipId);
    ListsPermuted(listedEvents, sortedEvents, audit.events, EventId);
    c := Content(sortedObjects, sortedRelationships, sortedEvents, sortedPackages);
    var timestamp := CurrentTimestamp();
    manifest := ExportManifest(SUPPORTED_VERSION, timestamp, metadata.id, metadata.version, ToInt32(|sortedObjects|),
                               ToInt32(|sortedRelationships|), ToInt32(|sortedPackages|));
    var objectsJson := EncodeAll(sortedObjects, ObjectToJson);
    var relationshipsJson := EncodeAll(sortedRelationships, RelationshipToJson);
    var eventsJson := EncodeAll(sortedEvents, EventToJson);
    var values := [ManifestToJson(manifest), MetadataToJson(metadata), objectsJson, relationshipsJson, eventsJson];
    var root := Record(ROOT_KEYS, values);
    if loaded.Some? {
      var packagesJson := EncodeAll(sortedPackages, PackageToJson);
      root := Record(ROOT_KEYS_WITH_PACKAGES, values + [packagesJson]);
    }
    text := SerializeValue(f, root);
  }

  /** Two exports of the same stores at the same time are the same text. */
  lemma ExportDeterministic(f: NumberFormat, timestamp: string, metadata: RepositoryMetadata, stores: Stores,
                            events: Events, packages: seq<PackageManifest>, c: Content, d: Content,
                            withPackages: bool)
    requires IsContent(c, stores, events, packages) && IsContent(d, stores, events, packages)
    requires DistinctPackages(packages)
    ensures Serialize(f, Document(Manifest(timestamp, metadata, c), metadata, c, withPackages))
            == Serialize(f, Document(Manifest(timestamp, metadata, d), metadata, d, withPackages))
  {
    hide IsContent, Serialize;
    ContentUnique(c, d, stores, events, packages);
  }

  datatype ArchiveError =
    | NotJson
    | NotAnObject
    | NoManifest
    | BadManifest
    | UnsupportedVersion
    | NoMetadata
    | BadMetadata
    | BadObject
    | BadRelationship
    | BadEvent
    | BadPackage

  datatype Decoded = Decoded(manifest: ExportManifest, metadata: RepositoryMetadata, content: Content)
                   | Refused(error: ArchiveError)

  predicate ValidManifest(m: ExportManifest) {
    && m.version != "" && m.timestamp != "" && m.repositoryId != "" && m.repositoryVersion != ""
    && m.objectCount >= 0 && m.relationshipCount >= 0 && m.packageCount >= 0
  }

  /** All elements decoded, unless one of them cannot be. */
  function DecodeAll<T>(elements: seq<Value>, decode: Value -> Option<T>): Option<seq<T>> {
    if elements == [] then Some([])
    else
      match DecodeAll(elements[..|elements| - 1], decode)
      case None => None
      case Some(before) =>
        match decode(elements[|elements| - 1])
        case None => None
        case Some(last) => Some(before + [last])
  }

  /** A missing section, or one that is not an array, counts as empty. */
  function Section<T>(root: Value, key: string, decode: Value -> Option<T>): Option<seq<T>> {
    match Find(root, key)
    case Some(Array(elements)) => DecodeAll(elements, decode)
    case _ => Some([])
  }

  /** Everything the importer checks before it writes anything. */
  function DecodeArchive(f: NumberFormat, text: string): Decoded {
    match Parse(f, text)
    case Failure(_) => Refused(NotJson)
    case Success(root) =>
      if !root.Object? then Refused(NotAnObject)
      else
        match Find(root, "exportManifest")
        case None => Refused(NoManifest)
        case Some(manifestValue) =>
          var manifest := ManifestFromJson(manifestValue);
          if !ValidManifest(manifest) then Refused(BadManifest)
          else if manifest.version != SUPPORTED_VERSION then Refused(UnsupportedVersion)
          else
            match Find(root, "repositoryMetadata")
            case None => Refused(NoMetadata)
            case Some(metadataValue) =>
              var metadata := MetadataFromJson(metadataValue);
              if !ValidMetadata(metadata) then Refused(BadMetadata)
              else
                match Section(root, "objects", ObjectFromJson)
                case None => Refused(BadObject)
                case Some(objects) =>
                  match Section(root, "relationships", RelationshipFromJson)
                  case None => Refused(BadRelationship)
                  case Some(relationships) =>
                    match Section(root, "auditEvents", EventFromJson)
                    case None => Refused(BadEvent)
                    case Some(events) =>
                      match Section(root, "packages", PackageFromJson)
                      case None => Refused(BadPackage)
                      case Some(packages) =>
                        Decoded(manifest, metadata, Content(objects, relationships, events, packages))
  }

  lemma {:induction false} DecodeFails<T>(elements: seq<Value>, decode: Value -> Option<T>, i: nat)
    requires i <= |elements| && DecodeAll(elements[..i], decode).None?
    ensures DecodeAll(elements, decode).None?
    decreases |elements|
  {
    if i == |elements| {
      assert elements[..i] == elements;
    } else {
      assert elements[..|elements| - 1][..i] == elements[..i];
      DecodeFails(elements[..|elements| - 1], decode, i);
    }
  }

  method DecodeSection<T>(root: Value, key: string, decode: Value -> Option<T>) returns (r: Option<seq<T>>)
    ensures r == Section(root, key, decode)
  {
    hide Find;
    var found := Find(root, key);
    if found.None? || !found.value.Array? {
      return Some([]);
    }
    var elements := found.value.elements;
    var items: seq<T> := [];
    for i := 0 to |elements|
      invariant DecodeAll(elements[..i], decode) == Some(items)
    {
      assert elements[..i + 1][..i] == elements[..i];
      var item := decode(elements[i]);
      if item.None? {
        DecodeFails(elements, decode, i + 1);
        return None;
      }
      items := items + [item.value];
    }
    assert elements[..|elements|] == elements;
    r := Some(items);
  }

  /** The checks of the importer, in its order. */
  method ReadArchive(f: NumberFormat, text: string) returns (r: Decoded)
    ensures r == DecodeArchive(f, text)
  {
    hide Find, Section, Parse, ValidMetadata, ValidManifest, ManifestFromJson, MetadataFromJson;
    var parsed := ParseText(f, text);
    if parsed.Failure? { return Refused(NotJson); }
    var root := parsed.value;
    if !root.Object? { return Refused(NotAnObject); }
    var manifestValue := Find(root, "exportManifest");
    if manifestValue.None? { return Refused(NoManifest); }
    var manifest := ManifestFromJson(manifestValue.value);
    if !ValidManifest(manifest) { return Refused(BadManifest); }
    if manifest.version != SUPPORTED_VERSION { return Refused(UnsupportedVersion); }
    var metadataValue := Find(root, "repositoryMetadata");
    if metadataValue.None? { return Refused(NoMetadata); }
    var metadata := MetadataFromJson(metadataValue.value);
    if !ValidMetadata(metadata) { return Refused(BadMetadata); }
    var objects := DecodeSection(root, "objects", ObjectFromJson);
    if objects.None? { return Refused(BadObject); }
    var relationships := DecodeSection(root, "relationships", RelationshipFromJson);
    if relationships.None? { return Refused(BadRelationship); }
    var events := DecodeSection(root, "auditEvents", EventFromJson);
    if events.None? { return Refused(BadEvent); }
    var packages := DecodeSection(root, "packages", PackageFromJson);
    if packages.None? { return Refused(BadPackage); }
    r := Decoded(manifest, metadata, Content(objects.value, relationships.value, events.value, packages.value));
  }

  /** Encoding each item and decoding each value again. */
  lemma {:induction false} DecodeEncoded<T>(items: seq<T>, encode: T -> Value, decode: Value -> Option<T>)
    requires forall x :: x in items ==> decode(encode(x)) == Some(x)
    ensures DecodeAll(Encoded(items, encode), decode) == Some(items)
    decreases |items|
  {
    if items != [] {
      var n := |items| - 1;
      DecodeEncoded(items[..n], encode, decode);
      assert Encoded(items, encode)[..n] == Encoded(items[..n], encode);
      assert items == items[..n] + [items[n]];
    }
  }

  lemma DocumentNumberFree(manifest: ExportManifest, metadata: RepositoryMetadata, c: Content, withPackages: bool)
    ensures NumberFree(Document(manifest, metadata, c, withPackages))
  {
    hide ObjectToJson, RelationshipToJson, EventToJson, PackageToJson, ManifestToJson, MetadataToJson, NumberFree;
    ManifestNumberFree(manifest);
    MetadataNumberFree(metadata);
    forall o | o in c.objects ensures NumberFree(ObjectToJson(o)) { ObjectNumberFree(o); }
    forall r | r in c.relationships ensures NumberFree(RelationshipToJson(r)) { RelationshipNumberFree(r); }
    forall e | e in c.events ensures NumberFree(EventToJson(e)) { EventNumberFree(e); }
    forall p | p in c.packages ensures NumberFree(PackageToJson(p)) { PackageNumberFree(p); }
    EncodedNumberFree(c.objects, ObjectToJson);
    EncodedNumberFree(c.relationships, RelationshipToJson);
    EncodedNumberFree(c.events, EventToJson);
    EncodedNumberFree(c.packages, PackageToJson);
    var values := DocumentValues(manifest, metadata, c);
    RecordNumberFree(ROOT_KEYS, values);
    RecordNumberFree(ROOT_KEYS_WITH_PACKAGES, values + [Array(Encoded(c.packages, PackageToJson))]);
  }

  lemma EncodedNumberFree<T>(items: seq<T>, encode: T -> Value)
    requires forall x :: x in items ==> NumberFree(encode(x))
    ensures NumberFree(Array(Encoded(items, encode)))
  {
  }

  /** The section is found, or is missing where there is nothing to find. */
  predicate HasSection(root: Value, key: string, elements: seq<Value>) {
    Find(root, key) == Some(Array(elements)) || (Find(root, key) == None && elements == [])
  }

  lemma SectionsBack(root: Value, c: Content)
    requires HasSection(root, "objects", Encoded(c.objects, ObjectToJson))
    requires HasSection(root, "relationships", Encoded(c.relationships, RelationshipToJson))
    requires HasSection(root, "auditEvents", Encoded(c.events, EventToJson))
    requires HasSection(root, "packages", Encoded(c.packages, PackageToJson))
    ensures Section(root, "objects", ObjectFromJson) == Some(c.objects)
    ensures Section(root, "relationships", RelationshipFromJson) == Some(c.relationships)
    ensures Section(root, "auditEvents", EventFromJson) == Some(c.events)
    ensures Section(root, "packages", PackageFromJson) == Some(c.packages)
  {
    hide Find, Encoded, ObjectToJson, ObjectFromJson, RelationshipToJson, RelationshipFromJson, EventToJson,
         EventFromJson, PackageToJson, PackageFromJson;
    forall o | o in c.objects ensures ObjectFromJson(ObjectToJson(o)) == Some(o) { ObjectBack(o); }
    forall r | r in c.relationships ensures RelationshipFromJson(RelationshipToJson(r)) == Some(r) {
      RelationshipBack(r);
    }
    forall e | e in c.events ensures EventFromJson(EventToJson(e)) == Some(e) { EventBack(e); }
    forall p | p in c.packages ensures PackageFromJson(PackageToJson(p)) == Some(p) { PackageBack(p); }
    DecodeEncoded(c.objects, ObjectToJson, ObjectFromJson);
    DecodeEncoded(c.relationships, RelationshipToJson, RelationshipFromJson);
    DecodeEncoded(c.events, EventToJson, EventFromJson);
    DecodeEncoded(c.packages, PackageToJson, PackageFromJson);
  }

  /** No count has wrapped to a negative 32-bit number. */
  predicate CountsFit(m: ExportManifest) {
    m.objectCount >= 0 && m.relationshipCount >= 0 && m.packageCount >= 0
  }

  lemma ManifestValid(timestamp: string, metadata: RepositoryMetadata, c: Content)
    requires timestamp != "" && ValidMetadata(metadata)
    ensures var m := Manifest(timestamp, metadata, c);
            ValidManifest(m) <==> CountsFit(m)
  {
  }

  /** Reading an exported text gives back exactly what was written, whatever bytes the strings hold. */
  lemma DecodeExport(f: NumberFormat, timestamp: string, metadata: RepositoryMetadata, c: Content, withPackages: bool)
    requires Standard(f) && timestamp != "" && ValidMetadata(metadata) && (withPackages || c.packages == [])
    ensures var manifest := Manifest(timestamp, metadata, c);
            DecodeArchive(f, Serialize(f, Document(manifest, metadata, c, withPackages)))
            == if CountsFit(manifest) then Decoded(manifest, metadata, c) else Refused(BadManifest)
  {
    var manifest := Manifest(timestamp, metadata, c);
    var root := Document(manifest, metadata, c, withPackages);
    DocumentFields(manifest, metadata, c, withPackages);
    hide Parse, Serialize, Standard, Find, ManifestFromJson, ManifestToJson, MetadataFromJson, MetadataToJson,
         NumberFree, Record, ValidManifest, ValidMetadata, Section, Encoded, Document, HasSection, CountsFit;
    DocumentNumberFree(manifest, metadata, c, withPackages);
    NumberFreeRoundTrip(f, root);
    ManifestBack(manifest);
    MetadataBack(metadata);
    SectionsBack(root, c);
    ManifestValid(timestamp, metadata, c);
  }

  lemma DocumentFields(manifest: ExportManifest, metadata: RepositoryMetadata, c: Content, withPackages: bool)
    requires withPackages || c.packages == []
    ensures var root := Document(manifest, metadata, c, withPackages);
            && root.Object?
            && Find(root, "exportManifest") == Some(ManifestToJson(manifest))
            && Find(root, "repositoryMetadata") == Some(MetadataToJson(metadata))
            && HasSection(root, "objects", Encoded(c.objects, ObjectToJson))
            && HasSection(root, "relationships", Encoded(c.relationships, RelationshipToJson))
            && HasSection(root, "auditEvents", Encoded(c.events, EventToJson))
            && HasSection(root, "packages", Encoded(c.packages, PackageToJson))
  {
    hide Find, Record, ManifestToJson, MetadataToJson;
    var values := DocumentValues(manifest, metadata, c);
    if withPackages {
      RootFields(ROOT_KEYS_WITH_PACKAGES, values + [Array(Encoded(c.packages, PackageToJson))]);
    } else {
      RootFields(ROOT_KEYS, values);
      NotAMember(ROOT_KEYS, values, "packages");
    }
  }

  lemma NotAMember(keys: seq<string>, values: seq<Value>, key: string)
    requires |keys| == |values| && key !in keys
    ensures Find(Record(keys, values), key) == None
  {
    var members := Record(keys, values).members;
    assert forall i :: 0 <= i < |members| ==> members[i].key == keys[i] && keys[i] in keys;
    hide FindMember;
  }

  lemma RootFields(keys: seq<string>, values: seq<Value>)
    requires keys in {ROOT_KEYS, ROOT_KEYS_WITH_PACKAGES} && |keys| == |values|
    ensures var root := Record(keys, values);
            && root.Object?
            && Find(root, "exportManifest") == Some(values[0])
            && Find(root, "repositoryMetadata") == Some(values[1])
            && Find(root, "objects") == Some(values[2])
            && Find(root, "relationships") == Some(values[3])
            && Find(root, "auditEvents") == Some(values[4])
            && (|keys| == 6 ==> Find(root, "packages") == Some(values[5]))
  {
    assert Record(keys, values).Object?;
    hide Find, Record;
    assert Distinct(keys);
    hide Distinct;
    Field(keys, values, 0, "exportManifest");
    Field(keys, values, 1, "repositoryMetadata");
    Field(keys, values, 2, "objects");
    Field(keys, values, 3, "relationships");
    Field(keys, values, 4, "auditEvents");
    if |keys| == 6 {
      Field(keys, values, 5, "packages");
    }
  }

  lemma {:induction false} ListedOnce<T(!new)>(s: seq<T>, m: map<string, T>, id: T -> string)
    requires Lists(s, m, id) && forall k :: k in m ==> id(m[k]) == k
    ensures |s| == |m|
    decreases |s|
  {
    if s == [] {
      assert m == map[];
    } else {
      var rest := m - {id(s[0])};
      forall x | x in s[1..] ensures id(x) in rest && rest[id(x)] == x {
        assert x in s;
      }
      forall k | k in rest ensures rest[k] in s[1..] {
        assert m[k] in s;
      }
      ListedOnce(s[1..], rest, id);
      assert m.Keys == rest.Keys + {id(s[0])};
    }
  }

  /** What an export says about itself: the counts are those of the repository. */
  lemma ManifestCounts(timestamp: string, metadata: RepositoryMetadata, c: Content, stores: Stores, events: Events,
                       packages: seq<PackageManifest>)
    requires Keyed(stores) && IsContent(c, stores, events, packages)
    requires |stores.objects| < 0x8000_0000 && |stores.relationships| < 0x8000_0000 && |packages| < 0x8000_0000
    ensures var m := Manifest(timestamp, metadata, c);
            && m.version == "1.0" && m.timestamp == timestamp
            && m.repositoryId == metadata.id && m.repositoryVersion == metadata.version
            && m.objectCount == |stores.objects| && m.relationshipCount == |stores.relationships|
            && m.packageCount == |packages|
  {
    ListedOnce(c.objects, stores.objects, ObjectId);
    ListedOnce(c.relationships, stores.relationships, RelationshipId);
    assert |multiset(c.packages)| == |c.packages| && |multiset(packages)| == |packages|;
  }

  /** Every section ascends: audit events by time and then identifier, all others by identifier. */
  lemma SectionsAscend(c: Content, stores: Stores, events: Events, packages: seq<PackageManifest>)
    requires IsContent(c, stores, events, packages)
    ensures forall i, j :: 0 <= i < j < |c.objects| ==> NotAfter(c.objects[i].id, c.objects[j].id)
    ensures forall i, j :: 0 <= i < j < |c.relationships| ==> NotAfter(c.relationships[i].id, c.relationships[j].id)
    ensures forall i, j :: 0 <= i < j < |c.packages| ==> NotAfter(c.packages[i].id, c.packages[j].id)
    ensures forall i, j :: 0 <= i < j < |c.events| ==>
              && NotAfter(c.events[i].timestamp, c.events[j].timestamp)
              && (c.events[i].timestamp == c.events[j].timestamp ==> NotAfter(c.events[i].id, c.events[j].id))
  {
    hide LexLess, NotAfter;
    forall a: string, b: string ensures !LexLess(b, a) <==> NotAfter(a, b) {
      NotLess(a, b);
    }
    forall a: string ensures NotAfter(a, a) {
      LexTotal(a, a);
    }
    assert forall i, j :: 0 <= i < j < |c.events| ==> !EventLess(c.events[j], c.events[i]);
  }
}
