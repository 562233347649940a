/** The JSON form of each kind of record in an export archive, and its decoder. */
module ArchiveCodec {
  import opened Options
  import opened Records
  import opened JsonValue
  import opened JsonParser
  import opened JsonWriter
  import opened JsonRoundTrip
  import opened Decimals

  const OBJECT_KEYS: seq<string> := ["objectId", "objectType", "name", "description", "createdUtc", "lastModifiedUtc",
    "version", "author", "tags"]
  const RELATIONSHIP_KEYS: seq<string> := ["relationshipId", "sourceObjectId", "targetObjectId", "relationshipType",
    "createdUtc", "author", "description"]
  const EVENT_KEYS: seq<string> := ["eventId", "timestampUtc", "eventType", "objectId", "user", "description"]
  const METADATA_KEYS: seq<string> := ["repositoryId", "repositoryName", "repositoryVersion", "foundationVersion",
    "templateVersion", "createdUtc", "lastModifiedUtc", "description", "author", "organization", "tags"]
  const MANIFEST_KEYS: seq<string> := ["exportVersion", "exportTimestampUtc", "repositoryId", "repositoryVersion",
    "objectCount", "relationshipCount", "packageCount"]
  const PACKAGE_KEYS: seq<string> := ["packageId", "packageName", "packageVersion", "packageType", "author",
    "organization", "description", "tags", "foundationVersion", "createdUtc"]

  datatype ExportManifest = ExportManifest(
    version: string,
    timestamp: string,
    repositoryId: string,
    repositoryVersion: string,
    objectCount: int,
    relationshipCount: int,
    packageCount: int)

  function ObjectTypeName(t: ObjectType): string {
    match t
    case Document => "Document"
    case Diagram => "Diagram"
    case Component => "Component"
    case Procedure => "Procedure"
    case Project => "Project"
    case Image => "Image"
  }

  function ObjectTypeFrom(s: string): (t: Option<ObjectType>)
    ensures t.Some? ==> ObjectTypeName(t.value) == s
    ensures forall k :: ObjectTypeName(k) == s ==> t == Some(k)
  {
    if s == "Document" then Some(Document)
    else if s == "Diagram" then Some(Diagram)
    else if s == "Component" then Some(Component)
    else if s == "Procedure" then Some(Procedure)
    else if s == "Project" then Some(Project)
    else if s == "Image" then Some(Image)
    else None
  }

  function RelationshipTypeFrom(s: string): (t: Option<RelationshipType>)
    ensures t.Some? ==> RelationshipTypeName(t.value) == s
    ensures forall k :: RelationshipTypeName(k) == s ==> t == Some(k)
  {
    if s == "References" then Some(References)
    else if s == "Contains" then Some(Contains)
    else if s == "DependsOn" then Some(DependsOn)
    else if s == "ConnectedTo" then Some(ConnectedTo)
    else if s == "Documents" then Some(Documents)
    else if s == "Implements" then Some(Implements)
    else None
  }

  function EventTypeName(t: AuditEventType): string {
    match t
    case RepositoryCreated => "RepositoryCreated"
    case ObjectCreatedEvent => "ObjectCreated"
    case ObjectUpdatedEvent => "ObjectUpdated"
    case ObjectDeletedEvent => "ObjectDeleted"
    case RelationshipCreatedEvent => "RelationshipCreated"
    case RelationshipUpdatedEvent => "RelationshipUpdated"
    case RelationshipDeletedEvent => "RelationshipDeleted"
  }

  function EventTypeFrom(s: string): (t: Option<AuditEventType>)
    ensures t.Some? ==> EventTypeName(t.value) == s
    ensures forall k :: EventTypeName(k) == s ==> t == Some(k)
  {
    if s == "RepositoryCreated" then Some(RepositoryCreated)
    else if s == "ObjectCreated" then Some(ObjectCreatedEvent)
    else if s == "ObjectUpdated" then Some(ObjectUpdatedEvent)
    else if s == "ObjectDeleted" then Some(ObjectDeletedEvent)
    else if s == "RelationshipCreated" then Some(RelationshipCreatedEvent)
    else if s == "RelationshipUpdated" then Some(RelationshipUpdatedEvent)
    else if s == "RelationshipDeleted" then Some(RelationshipDeletedEvent)
    else None
  }

  function PackageTypeName(t: PackageType): string {
    match t
    case EngineeringContent => "EngineeringContent"
    case Studio => "Studio"
    case SDK => "SDK"
    case Extension => "Extension"
    case Theme => "Theme"
  }

  function PackageTypeFrom(s: string): (t: Option<PackageType>)
    ensures t.Some? ==> PackageTypeName(t.value) == s
    ensures forall k :: PackageTypeName(k) == s ==> t == Some(k)
  {
    if s == "EngineeringContent" then Some(EngineeringContent)
    else if s == "Studio" then Some(Studio)
    else if s == "SDK" then Some(SDK)
    else if s == "Extension" then Some(Extension)
    else if s == "Theme" then Some(Theme)
    else None
  }

  /** The object with these members, in this order. */
  function Record(keys: seq<string>, values: seq<Value>): Value
    requires |keys| == |values|
  {
    Object(seq(|keys|, i requires 0 <= i < |keys| => Member(keys[i], values[i])))
  }

  function StringArray(values: seq<string>): Value {
    Array(seq(|values|, i requires 0 <= i < |values| => String(values[i])))
  }

  function ReadString(v: Value, key: string): string {
    match Find(v, key)
    case Some(String(s)) => s
    case _ => ""
  }

  /** The strings among the elements; others are skipped. */
  function Strings(elements: seq<Value>): seq<string> {
    if elements == [] then []
    else Strings(elements[..|elements| - 1])
         + match elements[|elements| - 1] { case String(s) => [s] case _ => [] }
  }

  function ReadStrings(v: Value, key: string): seq<string> {
    match Find(v, key)
    case Some(Array(elements)) => Strings(elements)
    case _ => []
  }

  function ReadInt(v: Value, key: string): int {
    match Find(v, key)
    case Some(String(s)) => (match Stoi(s) case Some(x) => x case None => 0)
    case _ => 0
  }

  function ObjectValues(o: EngineeringObject): (values: seq<Value>)
    ensures |values| == |OBJECT_KEYS|
  {
    [String(o.id), String(ObjectTypeName(o.kind)), String(o.name), String(o.description),
     String(o.created), String(o.modified), String(o.version), String(o.author),
     StringArray(o.tags)]
  }

  function ObjectToJson(o: EngineeringObject): Value {
    Record(OBJECT_KEYS, ObjectValues(o))
  }

  function ObjectFromJson(v: Value): Option<EngineeringObject> {
    match ObjectTypeFrom(ReadString(v, "objectType"))
    case None => None
    case Some(kind) =>
      Some(EngineeringObject(ReadString(v, "objectId"), kind, ReadString(v, "name"), ReadString(v, "description"),
                             ReadString(v, "createdUtc"), ReadString(v, "lastModifiedUtc"), ReadString(v, "version"),
                             ReadString(v, "author"), ReadStrings(v, "tags")))
  }

  function RelationshipValues(r: Relationship): (values: seq<Value>)
    ensures |values| == |RELATIONSHIP_KEYS|
  {
    [String(r.id), String(r.source), String(r.target), String(RelationshipTypeName(r.kind)),
     String(r.created), String(r.author), String(r.description)]
  }

  function RelationshipToJson(r: Relationship): Value {
    Record(RELATIONSHIP_KEYS, RelationshipValues(r))
  }

  function RelationshipFromJson(v: Value): Option<Relationship> {
    match RelationshipTypeFrom(ReadString(v, "relationshipType"))
    case None => None
    case Some(kind) =>
      Some(Relationship(ReadString(v, "relationshipId"), ReadString(v, "sourceObjectId"),
                        ReadString(v, "targetObjectId"), kind, ReadString(v, "createdUtc"), ReadString(v, "author"),
                        ReadString(v, "description")))
  }

  function EventValues(e: AuditEvent): (values: seq<Value>)
    ensures |values| == |EVENT_KEYS|
  {
    [String(e.id), String(e.timestamp), String(EventTypeName(e.kind)), String(e.subject),
     String(e.user), String(e.description)]
  }

  function EventToJson(e: AuditEvent): Value {
    Record(EVENT_KEYS, EventValues(e))
  }

  function EventFromJson(v: Value): Option<AuditEvent> {
    match EventTypeFrom(ReadString(v, "eventType"))
    case None => None
    case Some(kind) =>
      Some(AuditEvent(ReadString(v, "eventId"), ReadString(v, "timestampUtc"), kind, ReadString(v, "objectId"),
                      ReadString(v, "user"), ReadString(v, "description")))
  }

  function MetadataValues(m: RepositoryMetadata): (values: seq<Value>)
    ensures |values| == |METADATA_KEYS|
  {
    [String(m.id), String(m.name), String(m.version), String(m.foundationVersion),
     String(m.templateVersion), String(m.created), String(m.modified), String(m.description),
     String(m.author), String(m.organization), StringArray(m.tags)]
  }

  function MetadataToJson(m: RepositoryMetadata): Value {
    Record(METADATA_KEYS, MetadataValues(m))
  }

  function MetadataFromJson(v: Value): RepositoryMetadata {
    RepositoryMetadata(ReadString(v, "repositoryId"), ReadString(v, "repositoryName"),
                       ReadString(v, "repositoryVersion"), ReadString(v, "foundationVersion"),
                       ReadString(v, "templateVersion"), ReadString(v, "createdUtc"),
                       ReadString(v, "lastModifiedUtc"), ReadString(v, "description"), ReadString(v, "author"),
                       ReadString(v, "organization"), ReadStrings(v, "tags"))
  }

  function ManifestValues(m: ExportManifest): (values: seq<Value>)
    ensures |values| == |MANIFEST_KEYS|
  {
    [String(m.version), String(m.timestamp), String(m.repositoryId),
     String(m.repositoryVersion), String(ToString(m.objectCount)),
     String(ToString(m.relationshipCount)), String(ToString(m.packageCount))]
  }

  function ManifestToJson(m: ExportManifest): Value {
    Record(MANIFEST_KEYS, ManifestValues(m))
  }

  function ManifestFromJson(v: Value): ExportManifest {
    ExportManifest(ReadString(v, "exportVersion"), ReadString(v, "exportTimestampUtc"), ReadString(v, "repositoryId"),
                   ReadString(v, "repositoryVersion"), ReadInt(v, "objectCount"), ReadInt(v, "relationshipCount"),
                   ReadInt(v, "packageCount"))
  }

  function PackageValues(m: PackageManifest): (values: seq<Value>)
    ensures |values| == |PACKAGE_KEYS|
  {
    [String(m.id), String(m.name), String(m.version), String(PackageTypeName(m.kind)), String(m.author),
     String(m.organization), String(m.description), StringArray(m.tags), String(m.foundationVersion),
     String(m.created)]
  }

  function PackageToJson(m: PackageManifest): Value {
    Record(PACKAGE_KEYS, PackageValues(m))
  }

  function PackageFromJson(v: Value): Option<PackageManifest> {
    match PackageTypeFrom(ReadString(v, "packageType"))
    case None => None
    case Some(kind) =>
      Some(PackageManifest(ReadString(v, "packageId"), ReadString(v, "packageName"), ReadString(v, "packageVersion"),
                           kind, ReadString(v, "author"), ReadString(v, "organization"),
                           ReadString(v, "description"), ReadStrings(v, "tags"), ReadString(v, "foundationVersion"),
                           ReadString(v, "createdUtc")))
  }

  ghost predicate Distinct(keys: seq<string>) {
    forall i, j :: 0 <= i < j < |keys| ==> keys[i] != keys[j]
  }

  /** Every member of a record is found under its key. */
  lemma Field(keys: seq<string>, values: seq<Value>, i: nat, key: string)
    requires Distinct(keys) && i < |keys| == |values| && keys[i] == key
    ensures Find(Record(keys, values), key) == Some(values[i])
  {
    var members := Record(keys, values).members;
    assert members[i].key == key;
    hide FindMember;
  }

  lemma StringField(keys: seq<string>, values: seq<Value>, i: nat, key: string, text: string)
    requires Distinct(keys) && i < |keys| == |values| && keys[i] == key && values[i] == String(text)
    ensures ReadString(Record(keys, values), key) == text
  {
    hide Find;
    Field(keys, values, i, key);
  }

  lemma StringsField(keys: seq<string>, values: seq<Value>, i: nat, key: string, texts: seq<string>)
    requires Distinct(keys) && i < |keys| == |values| && keys[i] == key && values[i] == StringArray(texts)
    ensures ReadStrings(Record(keys, values), key) == texts
  {
    hide Find;
    Field(keys, values, i, key);
    StringsBack(texts);
  }

  lemma IntField(keys: seq<string>, values: seq<Value>, i: nat, key: string, x: int)
    requires Distinct(keys) && i < |keys| == |values| && keys[i] == key && values[i] == String(ToString(x))
    requires IsInt32(x)
    ensures ReadInt(Record(keys, values), key) == x
  {
    hide Find, Stoi, ToString;
    Field(keys, values, i, key);
    StoiToString(x);
  }

  lemma KeysDistinct()
    ensures Distinct(OBJECT_KEYS) && Distinct(RELATIONSHIP_KEYS) && Distinct(EVENT_KEYS)
    ensures Distinct(METADATA_KEYS) && Distinct(MANIFEST_KEYS) && Distinct(PACKAGE_KEYS)
  {
  }

  lemma {:induction false} StringsBack(values: seq<string>)
    ensures Strings(StringArray(values).elements) == values
  {
    if values != [] {
      StringsBack(values[..|values| - 1]);
      var elements := StringArray(values).elements;
      assert elements[..|elements| - 1] == StringArray(values[..|values| - 1]).elements;
      assert values == values[..|values| - 1] + [values[|values| - 1]];
    }
  }

  /** Decoding undoes encoding, for any strings whatever. */
  lemma ObjectBack(o: EngineeringObject)
    ensures ObjectFromJson(ObjectToJson(o)) == Some(o)
  {
    KeysDistinct();
    hide Distinct, Record, ReadString, ReadStrings, ReadInt, StringArray, ToString;
    var values := ObjectValues(o);
    StringField(OBJECT_KEYS, values, 0, "objectId", o.id);
    StringField(OBJECT_KEYS, values, 1, "objectType", ObjectTypeName(o.kind));
    StringField(OBJECT_KEYS, values, 2, "name", o.name);
    StringField(OBJECT_KEYS, values, 3, "description", o.description);
    StringField(OBJECT_KEYS, values, 4, "createdUtc", o.created);
    StringField(OBJECT_KEYS, values, 5, "lastModifiedUtc", o.modified);
    StringField(OBJECT_KEYS, values, 6, "version", o.version);
    StringField(OBJECT_KEYS, values, 7, "author", o.author);
    StringsField(OBJECT_KEYS, values, 8, "tags", o.tags);
  }

  lemma RelationshipBack(r: Relationship)
    ensures RelationshipFromJson(RelationshipToJson(r)) == Some(r)
  {
    KeysDistinct();
    hide Distinct, Record, ReadString, ReadStrings, ReadInt, StringArray, ToString;
    var values := RelationshipValues(r);
    StringField(RELATIONSHIP_KEYS, values, 0, "relationshipId", r.id);
    StringField(RELATIONSHIP_KEYS, values, 1, "sourceObjectId", r.source);
    StringField(RELATIONSHIP_KEYS, values, 2, "targetObjectId", r.target);
    StringField(RELATIONSHIP_KEYS, values, 3, "relationshipType", RelationshipTypeName(r.kind));
    StringField(RELATIONSHIP_KEYS, values, 4, "createdUtc", r.created);
    StringField(RELATIONSHIP_KEYS, values, 5, "author", r.author);
    StringField(RELATIONSHIP_KEYS, values, 6, "description", r.description);
  }

  lemma EventBack(e: AuditEvent)
    ensures EventFromJson(EventToJson(e)) == Some(e)
  {
    KeysDistinct();
    hide Distinct, Record, ReadString, ReadStrings, ReadInt, StringArray, ToString;
    var values := EventValues(e);
    StringField(EVENT_KEYS, values, 0, "eventId", e.id);
    StringField(EVENT_KEYS, values, 1, "timestampUtc", e.timestamp);
    StringField(EVENT_KEYS, values, 2, "eventType", EventTypeName(e.kind));
    StringField(EVENT_KEYS, values, 3, "objectId", e.subject);
    StringField(EVENT_KEYS, values, 4, "user", e.user);
    StringField(EVENT_KEYS, values, 5, "description", e.description);
  }

  lemma MetadataBack(m: RepositoryMetadata)
    ensures MetadataFromJson(MetadataToJson(m)) == m
  {
    KeysDistinct();
    hide Distinct, Record, ReadString, ReadStrings, ReadInt, StringArray, ToString;
    var values := MetadataValues(m);
    StringField(METADATA_KEYS, values, 0, "repositoryId", m.id);
    StringField(METADATA_KEYS, values, 1, "repositoryName", m.name);
    StringField(METADATA_KEYS, values, 2, "repositoryVersion", m.version);
    StringField(METADATA_KEYS, values, 3, "foundationVersion", m.foundationVersion);
    StringField(METADATA_KEYS, values, 4, "templateVersion", m.templateVersion);
    StringField(METADATA_KEYS, values, 5, "createdUtc", m.created);
    StringField(METADATA_KEYS, values, 6, "lastModifiedUtc", m.modified);
    StringField(METADATA_KEYS, values, 7, "description", m.description);
    StringField(METADATA_KEYS, values, 8, "author", m.author);
    StringField(METADATA_KEYS, values, 9, "organization", m.organization);
    StringsField(METADATA_KEYS, values, 10, "tags", m.tags);
  }

  /** Counts are stored as strings, and read back on the whole range of int. */
  lemma ManifestBack(m: ExportManifest)
    requires IsInt32(m.objectCount) && IsInt32(m.relationshipCount) && IsInt32(m.packageCount)
    ensures ManifestFromJson(ManifestToJson(m)) == m
  {
    KeysDistinct();
    hide Distinct, Record, ReadString, ReadStrings, ReadInt, StringArray, ToString;
    var values := ManifestValues(m);
    StringField(MANIFEST_KEYS, values, 0, "exportVersion", m.version);
    StringField(MANIFEST_KEYS, values, 1, "exportTimestampUtc", m.timestamp);
    StringField(MANIFEST_KEYS, values, 2, "repositoryId", m.repositoryId);
    StringField(MANIFEST_KEYS, values, 3, "repositoryVersion", m.repositoryVersion);
    IntField(MANIFEST_KEYS, values, 4, "objectCount", m.objectCount);
    IntField(MANIFEST_KEYS, values, 5, "relationshipCount", m.relationshipCount);
    IntField(MANIFEST_KEYS, values, 6, "packageCount", m.packageCount);
  }

  lemma PackageBack(m: PackageManifest)
    ensures PackageFromJson(PackageToJson(m)) == Some(m)
  {
    KeysDistinct();
    hide Distinct, Record, ReadString, ReadStrings, ReadInt, StringArray, ToString;
    var values := PackageValues(m);
    StringField(PACKAGE_KEYS, values, 0, "packageId", m.id);
    StringField(PACKAGE_KEYS, values, 1, "packageName", m.name);
    StringField(PACKAGE_KEYS, values, 2, "packageVersion", m.version);
    StringField(PACKAGE_KEYS, values, 3, "packageType", PackageTypeName(m.kind));
    StringField(PACKAGE_KEYS, values, 4, "author", m.author);
    StringField(PACKAGE_KEYS, values, 5, "organization", m.organization);
    StringField(PACKAGE_KEYS, values, 6, "description", m.description);
    StringsField(PACKAGE_KEYS, values, 7, "tags", m.tags);
    StringField(PACKAGE_KEYS, values, 8, "foundationVersion", m.foundationVersion);
    StringField(PACKAGE_KEYS, values, 9, "createdUtc", m.created);
  }

  /** Nothing the encoders produce contains a number. */
  lemma RecordNumberFree(keys: seq<string>, values: seq<Value>)
    requires |keys| == |values| && forall i :: 0 <= i < |values| ==> NumberFree(values[i])
    ensures NumberFree(Record(keys, values))
  {
  }

  lemma StringArrayNumberFree(values: seq<string>)
    ensures NumberFree(StringArray(values))
  {
  }

  lemma ObjectNumberFree(o: EngineeringObject)
    ensures NumberFree(ObjectToJson(o))
  {
    StringArrayNumberFree(o.tags);
    RecordNumberFree(OBJECT_KEYS, ObjectValues(o));
  }

  lemma RelationshipNumberFree(r: Relationship)
    ensures NumberFree(RelationshipToJson(r))
  {
    RecordNumberFree(RELATIONSHIP_KEYS, RelationshipValues(r));
  }

  lemma EventNumberFree(e: AuditEvent)
    ensures NumberFree(EventToJson(e))
  {
    RecordNumberFree(EVENT_KEYS, EventValues(e));
  }

  lemma MetadataNumberFree(m: RepositoryMetadata)
    ensures NumberFree(MetadataToJson(m))
  {
    StringArrayNumberFree(m.tags);
    RecordNumberFree(METADATA_KEYS, MetadataValues(m));
  }

  lemma ManifestNumberFree(m: ExportManifest)
    ensures NumberFree(ManifestToJson(m))
  {
    RecordNumberFree(MANIFEST_KEYS, ManifestValues(m));
  }

  lemma PackageNumberFree(m: PackageManifest)
    ensures NumberFree(PackageToJson(m))
  {
    StringArrayNumberFree(m.tags);
    RecordNumberFree(PACKAGE_KEYS, PackageValues(m));
  }

  /** A record written to a file and read again: what lets a directory of files stand for a map of records. */
  lemma FilesReadBack(f: NumberFormat, o: EngineeringObject, r: Relationship, e: AuditEvent)
    requires Standard(f)
    ensures Parse(f, Serialize(f, ObjectToJson(o))) == Success(ObjectToJson(o))
            && ObjectFromJson(ObjectToJson(o)) == Some(o)
    ensures Parse(f, Serialize(f, RelationshipToJson(r))) == Success(RelationshipToJson(r))
            && RelationshipFromJson(RelationshipToJson(r)) == Some(r)
    ensures Parse(f, Serialize(f, EventToJson(e))) == Success(EventToJson(e))
            && EventFromJson(EventToJson(e)) == Some(e)
  {
    hide NumberFree, Parse, Serialize, Standard;
    ObjectNumberFree(o);
    ObjectBack(o);
    NumberFreeRoundTrip(f, ObjectToJson(o));
    RelationshipNumberFree(r);
    RelationshipBack(r);
    NumberFreeRoundTrip(f, RelationshipToJson(r));
    EventNumberFree(e);
    EventBack(e);
    NumberFreeRoundTrip(f, EventToJson(e));
  }

  /** A field that is missing, or of another kind, reads as the empty string, as no strings, or as the number 0. */
  lemma AbsentFields(v: Value, key: string)
    requires match Find(v, key) case Some(String(_)) => false case Some(Array(_)) => false case _ => true
    ensures ReadString(v, key) == "" && ReadStrings(v, key) == [] && ReadInt(v, key) == 0
  {
  }
}
