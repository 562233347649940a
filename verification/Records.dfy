/** The records of a repository, with their validators, and the sources of identifiers and time. */
module Records {
  datatype ObjectType = Document | Diagram | Component | Procedure | Project | Image

  datatype EngineeringObject = EngineeringObject(
    id: string,
    kind: ObjectType,
    name: string,
    description: string,
    created: string,
    modified: string,
    version: string,
    author: string,
    tags: seq<string>)

  datatype RelationshipType = References | Contains | DependsOn | ConnectedTo | Documents | Implements

  datatype Relationship = Relationship(
    id: string,
    source: string,
    target: string,
    kind: RelationshipType,
    created: string,
    author: string,
    description: string)

  datatype AuditEventType =
    | RepositoryCreated
    | ObjectCreatedEvent
    | ObjectUpdatedEvent
    | ObjectDeletedEvent
    | RelationshipCreatedEvent
    | RelationshipUpdatedEvent
    | RelationshipDeletedEvent

  datatype AuditEvent = AuditEvent(
    id: string,
    timestamp: string,
    kind: AuditEventType,
    subject: string,
    user: string,
    description: string)

  datatype RepositoryMetadata = RepositoryMetadata(
    id: string,
    name: string,
    version: string,
    foundationVersion: string,
    templateVersion: string,
    created: string,
    modified: string,
    description: string,
    author: string,
    organization: string,
    tags: seq<string>)

  function RelationshipTypeName(t: RelationshipType): string {
    match t
    case References => "References"
    case Contains => "Contains"
    case DependsOn => "DependsOn"
    case ConnectedTo => "ConnectedTo"
    case Documents => "Documents"
    case Implements => "Implements"
  }

  datatype PackageType = EngineeringContent | Studio | SDK | Extension | Theme

  datatype PackageManifest = PackageManifest(
    id: string,
    name: string,
    version: string,
    kind: PackageType,
    author: string,
    organization: string,
    description: string,
    tags: seq<string>,
    foundationVersion: string,
    created: string)

  function ObjectId(o: EngineeringObject): string { o.id }

  function RelationshipId(r: Relationship): string { r.id }

  function EventId(e: AuditEvent): string { e.id }

  predicate IsDigit(c: char) {
    '0' <= c <= '9'
  }

  predicate IsHexDigit(c: char) {
    '0' <= c <= '9' || 'a' <= c <= 'f' || 'A' <= c <= 'F'
  }

  /** What the version 4 pattern allows at one of the 36 places. */
  predicate IsUuidChar(i: nat, c: char) {
    if i == 8 || i == 13 || i == 18 || i == 23 then c == '-'
    else if i == 14 then c == '4'
    else if i == 19 then c == '8' || c == '9' || c == 'a' || c == 'b' || c == 'A' || c == 'B'
    else IsHexDigit(c)
  }

  predicate IsUuid(s: string) {
    |s| == 36 && forall i :: 0 <= i < 36 ==> IsUuidChar(i, s[i])
  }

  /** Three runs of digits separated by two dots. */
  predicate IsVersion(s: string) {
    exists i, j :: 0 < i < |s| && i + 1 < j < |s| - 1 && s[i] == '.' && s[j] == '.'
                   && forall k :: 0 <= k < |s| && k != i && k != j ==> IsDigit(s[k])
  }

  predicate ValidObject(o: EngineeringObject) {
    IsUuid(o.id) && o.name != "" && o.created != "" && o.modified != "" && IsVersion(o.version)
  }

  predicate ValidRelationship(r: Relationship) {
    IsUuid(r.id) && IsUuid(r.source) && IsUuid(r.target) && r.source != r.target && r.created != ""
  }

  predicate ValidAuditEvent(e: AuditEvent) {
    IsUuid(e.id) && e.timestamp != "" && (e.subject == "" || IsUuid(e.subject))
  }

  predicate ValidMetadata(m: RepositoryMetadata) {
    IsUuid(m.id) && m.name != "" && m.foundationVersion != "" && m.templateVersion != ""
    && m.created != "" && m.modified != "" && IsVersion(m.version)
  }

  /** The time, in an unspecified form; all that matters is that it is not the empty string. */
  method CurrentTimestamp() returns (now: string)
    ensures now != ""
  {
    now := *;
    if now == "" {
      now := "2026";
    }
  }

  method GenerateUuid() returns (id: string)
    ensures IsUuid(id)
  {
    id := *;
    if !IsUuid(id) {
      id := seq(36, i => if i == 8 || i == 13 || i == 18 || i == 23 then '-' else if i == 14 then '4' else '8');
    }
  }

  // The patterns of identifiers and versions, spelled out.

  const HEX_DIGITS := "0123456789abcdefABCDEF"
  const UUID_PATTERN := "xxxxxxxx-xxxx-4xxx-yxxx-xxxxxxxxxxxx"

  lemma HexDigits(c: char)
    ensures IsHexDigit(c) <==> c in HEX_DIGITS
  {
    var k := if '0' <= c <= '9' then c as int - '0' as int
             else if 'a' <= c <= 'f' then c as int - 'a' as int + 10 else c as int - 'A' as int + 16;
    assert IsHexDigit(c) ==> HEX_DIGITS[k] == c;
  }

  predicate FitsPlace(place: char, c: char) {
    if place == 'x' then c in HEX_DIGITS else if place == 'y' then c in "89abAB" else c == place
  }

  lemma UuidMeans(s: string)
    ensures IsUuid(s) <==> |s| == 36 && forall i :: 0 <= i < 36 ==> FitsPlace(UUID_PATTERN[i], s[i])
  {
    hide IsHexDigit;
    if |s| == 36 {
      forall i | 0 <= i < 36 ensures IsUuidChar(i, s[i]) <==> FitsPlace(UUID_PATTERN[i], s[i]) {
        HexDigits(s[i]);
      }
    }
  }

  ghost predicate DecimalRun(w: string) {
    w != "" && forall i :: 0 <= i < |w| ==> w[i] in "0123456789"
  }

  lemma DecimalDigits(c: char)
    ensures IsDigit(c) <==> c in "0123456789"
  {
    assert IsDigit(c) ==> "0123456789"[c as int - '0' as int] == c;
  }

  /** The digits before, between and behind two dots. */
  lemma VersionParts(s: string) returns (a: string, b: string, c: string)
    requires IsVersion(s)
    ensures DecimalRun(a) && DecimalRun(b) && DecimalRun(c) && s == a + "." + b + "." + c
  {
    hide IsDigit, DecimalRun;
    var i, j :| 0 < i < |s| && i + 1 < j < |s| - 1 && s[i] == '.' && s[j] == '.'
                && forall k :: 0 <= k < |s| && k != i && k != j ==> IsDigit(s[k]);
    a, b, c := s[0..i], s[i + 1..j], s[j + 1..|s|];
    DecimalPart(s, 0, i);
    DecimalPart(s, i + 1, j);
    DecimalPart(s, j + 1, |s|);
    TwoDots(s, i, j);
  }

  lemma TwoDots(s: string, i: nat, j: nat)
    requires i < j < |s| && s[i] == '.' && s[j] == '.'
    ensures s == s[..i] + "." + s[i + 1..j] + "." + s[j + 1..]
  {
  }

  lemma DecimalPart(s: string, i: nat, j: nat)
    requires i < j <= |s| && forall k :: i <= k < j ==> IsDigit(s[k])
    ensures DecimalRun(s[i..j])
  {
    hide IsDigit;
    forall k | 0 <= k < j - i ensures s[i..j][k] in "0123456789" {
      DecimalDigits(s[i + k]);
    }
  }

  lemma VersionJoined(s: string, a: string, b: string, c: string)
    requires DecimalRun(a) && DecimalRun(b) && DecimalRun(c) && s == a + "." + b + "." + c
    ensures IsVersion(s)
  {
    var i, j := |a|, |a| + 1 + |b|;
    assert s[i] == '.' && s[j] == '.';
    forall k | 0 <= k < |s| && k != i && k != j ensures IsDigit(s[k]) {
      DecimalDigits(s[k]);
      assert s[k] == if k < i then a[k] else if k < j then b[k - i - 1] else c[k - j - 1];
    }
  }

  lemma VersionMeans(s: string)
    ensures IsVersion(s) <==> exists a, b, c :: DecimalRun(a) && DecimalRun(b) && DecimalRun(c) && s == a + "." + b + "." + c
  {
    hide IsVersion, DecimalRun;
    if IsVersion(s) {
      var a, b, c := VersionParts(s);
    } else if a, b, c :| DecimalRun(a) && DecimalRun(b) && DecimalRun(c) && s == a + "." + b + "." + c {
      VersionJoined(s, a, b, c);
    }
  }
}
