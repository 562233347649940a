/** The trust decision on a package archive: coverage of the archive by the signed hashes, the publisher's
    certificate, and the signature over the canonical form of the hashes. */
module PackageVerifier {
  import opened Options
  import opened Words
  import opened Sequences
  import opened Sorting
  import opened Listing
  import opened JsonValue
  import JsonParser
  import opened ArchiveCodec
  import opened TrustStates
  import opened Hex
  import Z = ZipReader
  import Sha2Variants
  import Ed25519

  const SIGNATURE_PATH := "signatures/package.sig"
  const SIGNATURES_PREFIX := "signatures/"

  /** Path to SHA-256 of the content, as lower-case text. */
  type Hashes = map<string, string>

  datatype Certificate = Certificate(publicKeyHex: string, fingerprint: string, expires: string, revoked: bool)

  /** The signature block, as far as it is well formed. */
  datatype Block = Block(publisherId: string, publicKeyHex: string, signatureHex: string, hashes: Hashes)

  /** A block that has to be rejected as invalid still says, if it can be read at all, whose it claims to be. */
  datatype Reading = Rejected(publisherId: string) | Accepted(block: Block)

  /** The process can fail, or it comes to a state. */
  datatype Outcome = Unreadable | Decided(state: TrustState, publisherId: string, fingerprint: string)

  predicate IsHashEntry(v: Value) {
    v.Object? && ReadString(v, "path") != "" && |ReadString(v, "sha256")| == 64
  }

  /** The hash list; a later entry for the same path replaces an earlier one. */
  function SignedHashes(elements: seq<Value>): Option<Hashes> {
    if elements == [] then Some(map[])
    else
      match SignedHashes(elements[..|elements| - 1])
      case None => None
      case Some(hashes) =>
        var last := elements[|elements| - 1];
        if IsHashEntry(last) then Some(hashes[ReadString(last, "path") := ToLower(ReadString(last, "sha256"))]) else None
  }

  /** What the text of the signature block says. */
  function BlockOf(f: NumberFormat, text: string): Reading {
    match JsonParser.Parse(f, text)
    case Failure(_) => Rejected("")
    case Success(root) =>
      if !root.Object? then Rejected("")
      else
        var publisherId := ReadString(root, "publisherId");
        if ReadString(root, "algorithm") != "Ed25519" || publisherId == "" then Rejected(publisherId)
        else
          match Find(root, "contentHashes")
          case Some(Array(elements)) =>
            (match SignedHashes(elements)
             case None => Rejected(publisherId)
             case Some(hashes) =>
               Accepted(Block(publisherId, ToLower(ReadString(root, "publicKeyHex")), ReadString(root, "signatureHex"),
                              hashes)))
          case _ => Rejected(publisherId)
  }

  predicate InSignatures(name: string) {
    SIGNATURES_PREFIX <= name
  }

  /** The entry outside signatures/ is listed, and its content has the listed hash. */
  ghost predicate EntryCovered(entries: seq<Z.Entry>, data: Z.Data, hashes: Hashes, name: string) {
    "signatures/" <= name
    || (name in hashes
        && var content := Z.ReadBytes(entries, name, data);
           content.Success? && ToHex(Sha2Variants.Sha256(content.value)) == hashes[name])
  }

  /** The hash list and the archive cover each other. */
  ghost predicate Covered(entries: seq<Z.Entry>, data: Z.Data, hashes: Hashes) {
    && (forall i :: 0 <= i < |entries| ==> EntryCovered(entries, data, hashes, entries[i].name))
    && (forall path :: path in hashes ==> Z.Find(entries, path).Some?)
  }

  predicate Expired(c: Certificate, now: string) {
    c.expires != "" && LexLess(c.expires, now)
  }

  predicate CertificateAllows(c: Certificate, publicKeyHex: string, now: string) {
    !c.revoked && !Expired(c, now) && ToLower(c.publicKeyHex) == publicKeyHex
  }

  ghost predicate Covers(keys: seq<string>, hashes: Hashes) {
    forall k :: k in keys ==> k in hashes
  }

  /** The keys of the list in the order of std::map. */
  ghost predicate IsKeyOrder(keys: seq<string>, hashes: Hashes) {
    Covers(keys, hashes) && NoDuplicates(keys) && Sorted(keys, LexLess) && forall k :: k in hashes ==> k in keys
  }

  /** One line for the path and one for the hash of each key from i on. */
  function Payload(keys: seq<string>, hashes: Hashes, i: nat): string
    requires i <= |keys| && Covers(keys, hashes)
    decreases |keys| - i
  {
    if i == |keys| then ""
    else keys[i] + ("\n" + (hashes[keys[i]] + ("\n" + Payload(keys, hashes, i + 1))))
  }

  /** A std::string as bytes. */
  function Bytes(s: string): Z.Data {
    seq(|s|, i requires 0 <= i < |s| => (s[i] as int % 0x100) as byte)
  }

  ghost predicate SignatureVerifies(payload: string, publicKeyHex: string, signatureHex: string) {
    var key, signature := FromHex(publicKeyHex), FromHex(ToLower(signatureHex));
    && key.Some? && |key.value| == 32 && signature.Some? && |signature.value| == 64
    && Ed25519.Accepts(Bytes(payload), key.value, signature.value)
  }

  /** The signature covers the canonical form of the hash list. */
  ghost predicate Signed(b: Block) {
    exists keys :: Covers(keys, b.hashes)
                   && SignatureVerifies(Payload(keys, b.hashes, 0), b.publicKeyHex, b.signatureHex)
                   && IsKeyOrder(keys, b.hashes)
  }

  /** Everything that makes a package with this signature block trusted. */
  ghost predicate Vouched(block: Block, entries: seq<Z.Entry>, data: Z.Data, certificates: map<string, Certificate>,
                          now: string) {
    && Covered(entries, data, block.hashes)
    && block.publisherId in certificates
    && CertificateAllows(certificates[block.publisherId], block.publicKeyHex, now)
    && Signed(block)
  }

  /** Everything that makes a package trusted. */
  ghost predicate Trustworthy(f: NumberFormat, entries: seq<Z.Entry>, data: Z.Data,
                              certificates: map<string, Certificate>, now: string) {
    var signature := Z.ReadBytes(entries, SIGNATURE_PATH, data);
    && signature.Success?
    && var reading := BlockOf(f, Z.Text(signature.value));
    && reading.Accepted? && Vouched(reading.block, entries, data, certificates, now)
  }

  lemma {:induction false} HashesFail(elements: seq<Value>, i: nat)
    requires i <= |elements| && SignedHashes(elements[..i]).None?
    ensures SignedHashes(elements).None?
    decreases |elements|
  {
    if i == |elements| {
      assert elements[..i] == elements;
    } else {
      assert elements[..|elements| - 1][..i] == elements[..i];
      HashesFail(elements[..|elements| - 1], i);
    }
  }

  method CollectHashes(elements: seq<Value>) returns (r: Option<Hashes>)
    ensures r == SignedHashes(elements)
  {
    hide ReadString, ToLower;
    var hashes: Hashes := map[];
    for i := 0 to |elements|
      invariant SignedHashes(elements[..i]) == Some(hashes)
    {
      var entry := elements[i];
      assert elements[..i + 1][..i] == elements[..i];
      if !entry.Object? {
        HashesFail(elements, i + 1);
        return None;
      }
      var path, sha256 := ReadString(entry, "path"), ToLower(ReadString(entry, "sha256"));
      if path == "" || |sha256| != 64 {
        HashesFail(elements, i + 1);
        return None;
      }
      hashes := hashes[path := sha256];
    }
    assert elements[..|elements|] == elements;
    r := Some(hashes);
  }

  method ReadBlock(f: NumberFormat, text: string) returns (r: Reading)
    ensures r == BlockOf(f, text)
  {
    hide Find, ReadString, ToLower, JsonParser.Parse, SignedHashes;
    var parsed := JsonParser.ParseText(f, text);
    if parsed.Failure? || !parsed.value.Object? { return Rejected(""); }
    var root := parsed.value;
    var publisherId := ReadString(root, "publisherId");
    if ReadString(root, "algorithm") != "Ed25519" { return Rejected(publisherId); }
    if publisherId == "" { return Rejected(""); }
    var contentHashes := Find(root, "contentHashes");
    if contentHashes.None? || !contentHashes.value.Array? { return Rejected(publisherId); }
    var hashes := CollectHashes(contentHashes.value.elements);
    if hashes.None? { return Rejected(publisherId); }
    r := Accepted(Block(publisherId, ToLower(ReadString(root, "publicKeyHex")), ReadString(root, "signatureHex"),
                        hashes.value));
  }

  datatype Coverage = Full | Gap | Broken

  /** The two coverage loops. */
  method CheckCoverage(entries: seq<Z.Entry>, data: Z.Data, hashes: Hashes) returns (r: Coverage)
    ensures r.Full? <==> Covered(entries, data, hashes)
    ensures r.Broken? ==> exists i :: 0 <= i < |entries| && Z.ReadBytes(entries, entries[i].name, data).Failure?
  {
    hide Z.ReadBytes, Z.Find, ToHex, Sha2Variants.Sha256;
    for i := 0 to |entries|
      invariant forall k :: 0 <= k < i ==> EntryCovered(entries, data, hashes, entries[k].name)
    {
      var name := entries[i].name;
      if InSignatures(name) {
        continue;
      }
      if name !in hashes {
        assert !EntryCovered(entries, data, hashes, entries[i].name);
        return Gap;
      }
      var content := Z.ReadBytes(entries, name, data);
      if content.Failure? {
        assert !EntryCovered(entries, data, hashes, entries[i].name);
        return Broken;
      }
      var digest := Sha2Variants.HashSha256(content.value);
      var hex := EncodeHex(digest);
      if hex != hashes[name] {
        assert !EntryCovered(entries, data, hashes, entries[i].name);
        return Gap;
      }
    }
    var left := hashes.Keys;
    while left != {}
      invariant left <= hashes.Keys
      invariant forall path :: path in hashes && path !in left ==> Z.Find(entries, path).Some?
    {
      var path :| path in left;
      if Z.Find(entries, path).None? {
        return Gap;
      }
      left := left - {path};
    }
    r := Full;
  }

  /** std::map iteration visits the keys in their order. */
  method OrderedKeys(hashes: Hashes) returns (keys: seq<string>)
    ensures IsKeyOrder(keys, hashes)
  {
    LexOrder();
    hide StrictWeak, LexLess;
    var listed: seq<string> := [];
    var left := hashes.Keys;
    while left != {}
      invariant left <= hashes.Keys && NoDuplicates(listed)
      invariant forall k :: k in listed <==> k in hashes && k !in left
    {
      var k :| k in left;
      listed := listed + [k];
      left := left - {k};
    }
    keys := Sort(listed, LexLess);
    PermutedNoDuplicates(listed, keys);
    SameMembers(listed, keys);
  }

  method BuildPayload(keys: seq<string>, hashes: Hashes) returns (payload: string)
    requires forall k :: k in keys ==> k in hashes
    ensures payload == Payload(keys, hashes, 0)
  {
    payload := "";
    assert "" + Payload(keys, hashes, 0) == Payload(keys, hashes, 0);
    for i := 0 to |keys|
      invariant payload + Payload(keys, hashes, i) == Payload(keys, hashes, 0)
    {
      ghost var before, rest := payload, Payload(keys, hashes, i + 1);
      var path, hash := keys[i], hashes[keys[i]];
      payload := payload + path;
      payload := payload + "\n";
      payload := payload + hash;
      payload := payload + "\n";
      LinesJoin(before, path, hash, rest);
    }
    assert payload + "" == payload;
  }

  lemma LinesJoin(before: string, path: string, hash: string, rest: string)
    ensures before + path + "\n" + hash + "\n" + rest == before + (path + ("\n" + (hash + ("\n" + rest))))
  {
  }

  /** There is one such order. */
  lemma KeyOrderUnique(a: seq<string>, b: seq<string>, hashes: Hashes)
    requires IsKeyOrder(a, hashes) && IsKeyOrder(b, hashes)
    ensures a == b
  {
    LexOrder();
    hide LexLess, StrictWeak;
    SameElements(a, b);
    forall x, y | x in a && y in a ensures x == y || LexLess(x, y) || LexLess(y, x) {
      LexTotal(x, y);
    }
    SortedUnique(a, b, LexLess);
  }

  method CheckSignature(b: Block) returns (ok: bool)
    ensures ok <==> Signed(b)
  {
    hide FromHex, ToLower, Ed25519.Accepts, LexLess;
    var keys := OrderedKeys(b.hashes);
    forall other | IsKeyOrder(other, b.hashes) ensures other == keys {
      KeyOrderUnique(other, keys, b.hashes);
    }
    hide IsKeyOrder;
    var payload := BuildPayload(keys, b.hashes);
    var key := HexToBytes(b.publicKeyHex);
    var signature := HexToBytes(ToLower(b.signatureHex));
    if key.None? || |key.value| != 32 || signature.None? || |signature.value| != 64 {
      return false;
    }
    ok := Ed25519.Verify(Bytes(payload), key.value, signature.value);
  }

  /** What the state says of a certificate. */
  ghost predicate CertificateFits(r: Outcome, c: Certificate, block: Block, now: string)
    requires r.Decided?
  {
    && r.fingerprint == c.fingerprint
    && r.state == if c.revoked then RevokedCertificate
                  else if Expired(c, now) then ExpiredCertificate
                  else if ToLower(c.publicKeyHex) == block.publicKeyHex && Signed(block) then Trusted
                  else InvalidSignature
  }

  /** What the state says once there is a signature block: each check is reached only when the earlier ones pass. */
  ghost predicate StateFits(r: Outcome, entries: seq<Z.Entry>, data: Z.Data, block: Block,
                            certificates: map<string, Certificate>, now: string)
    requires r.Decided?
  {
    && r.publisherId == block.publisherId
    && if !Covered(entries, data, block.hashes) then r.state == Tampered
       else if block.publisherId !in certificates then r.state == UnknownPublisher
       else CertificateFits(r, certificates[block.publisherId], block, now)
  }

  /** What each outcome says about the package. */
  ghost predicate Justified(r: Outcome, f: NumberFormat, entries: seq<Z.Entry>, data: Z.Data,
                            certificates: map<string, Certificate>, now: string) {
    var signature := Z.ReadBytes(entries, SIGNATURE_PATH, data);
    if r.Unreadable? then exists i :: 0 <= i < |entries| && Z.ReadBytes(entries, entries[i].name, data).Failure?
    else if Z.Find(entries, SIGNATURE_PATH).None? then r == Decided(Unsigned, "", "")
    else
      signature.Success?
      && match BlockOf(f, Z.Text(signature.value))
         case Rejected(publisherId) => r == Decided(InvalidSignature, publisherId, "")
         case Accepted(block) => StateFits(r, entries, data, block, certificates, now)
  }

  /** Trusted exactly when everything that makes a package trusted holds; unsigned exactly when there is no
      signature block at all. */
  method VerifyEntries(f: NumberFormat, entries: seq<Z.Entry>, data: Z.Data, certificates: map<string, Certificate>,
                       now: string)
    returns (r: Outcome)
    ensures r.Decided? && r.state == Trusted <==> Trustworthy(f, entries, data, certificates, now)
    ensures r.Decided? && r.state == Unsigned <==> Z.Find(entries, SIGNATURE_PATH).None?
    ensures Justified(r, f, entries, data, certificates, now)
  {
    hide Z.ReadBytes, Z.Find, BlockOf, Covered, Expired, ToLower, Signed;
    if Z.Find(entries, SIGNATURE_PATH).None? {
      NoEntryNoBytes(entries, SIGNATURE_PATH, data);
      return Decided(Unsigned, "", "");
    }
    var signature := Z.ReadBytes(entries, SIGNATURE_PATH, data);
    if signature.Failure? { return Unreadable; }
    var reading := ReadBlock(f, Z.Text(signature.value));
    if reading.Rejected? { return Decided(InvalidSignature, reading.publisherId, ""); }
    var block := reading.block;
    var coverage := CheckCoverage(entries, data, block.hashes);
    if coverage.Broken? { return Unreadable; }
    if coverage.Gap? { return Decided(Tampered, block.publisherId, ""); }
    if block.publisherId !in certificates { return Decided(UnknownPublisher, block.publisherId, ""); }
    var c := certificates[block.publisherId];
    if c.revoked {
      return Decided(RevokedCertificate, block.publisherId, c.fingerprint);
    }
    if Expired(c, now) {
      return Decided(ExpiredCertificate, block.publisherId, c.fingerprint);
    }
    if ToLower(c.publicKeyHex) != block.publicKeyHex {
      return Decided(InvalidSignature, block.publisherId, c.fingerprint);
    }
    var verified := CheckSignature(block);
    if !verified { return Decided(InvalidSignature, block.publisherId, c.fingerprint); }
    r := Decided(Trusted, block.publisherId, c.fingerprint);
  }

  lemma NoEntryNoBytes(entries: seq<Z.Entry>, name: string, data: Z.Data)
    ensures Z.Find(entries, name).None? ==> Z.ReadBytes(entries, name, data).Failure?
  {
  }

  /** An archive that cannot be opened is unreadable; another is trusted exactly when everything that makes a package
      trusted holds, and unsigned exactly when it has no signature block. */
  ghost predicate IsDecision(r: Outcome, f: NumberFormat, found: Z.Result<seq<Z.Entry>>, data: Z.Data,
                             certificates: map<string, Certificate>, now: string) {
    match found
    case Failure(_) => r == Unreadable
    case Success(entries) =>
      && (IsState(r, Trusted) <==> Trustworthy(f, entries, data, certificates, now))
      && (IsState(r, Unsigned) <==> Z.Find(entries, SIGNATURE_PATH).None?)
      && Justified(r, f, entries, data, certificates, now)
  }

  predicate IsState(r: Outcome, state: TrustState) {
    r.Decided? && r.state == state
  }

  /** The whole decision, from the bytes of the archive. */
  method VerifyPackageTrust(f: NumberFormat, data: Z.Data, certificates: map<string, Certificate>, now: string)
    returns (r: Outcome)
    ensures exists found :: Z.IsOpened(data, found) && IsDecision(r, f, found, data, certificates, now)
    ensures SIGNATURE_PATH == "signatures/package.sig"
  {
    hide Z.IsOpened, Z.Find, Trustworthy, Justified;
    var found := Z.Open(data);
    if found.Failure? {
      assert IsDecision(Unreadable, f, found, data, certificates, now);
      return Unreadable;
    }
    r := VerifyEntries(f, found.value, data, certificates, now);
    assert IsDecision(r, f, found, data, certificates, now);
  }

  // When a certificate has expired.

  /** YYYY-MM-DDThh:mm:ssZ. */
  predicate IsTime(s: string) {
    && |s| == 20 && s[4] == '-' && s[7] == '-' && s[10] == 'T' && s[13] == ':' && s[16] == ':' && s[19] == 'Z'
    && forall i :: 0 <= i < 20 && i !in {4, 7, 10, 13, 16, 19} ==> '0' <= s[i] <= '9'
  }

  /** The number that the two digits at place i spell. */
  function Pair(s: string, i: nat): int
    requires i + 2 <= |s|
  {
    10 * (s[i] as int - '0' as int) + (s[i + 1] as int - '0' as int)
  }

  datatype Moment = Moment(year: int, month: int, day: int, hour: int, minute: int, second: int)

  function MomentOf(s: string): Moment
    requires IsTime(s)
  {
    Moment(100 * Pair(s, 0) + Pair(s, 2), Pair(s, 5), Pair(s, 8), Pair(s, 11), Pair(s, 14), Pair(s, 17))
  }

  predicate Earlier(a: Moment, b: Moment) {
    a.year < b.year || (a.year == b.year && (
    a.month < b.month || (a.month == b.month && (
    a.day < b.day || (a.day == b.day && (
    a.hour < b.hour || (a.hour == b.hour && (
    a.minute < b.minute || (a.minute == b.minute && a.second < b.second)))))))))
  }

  /** A package that passes the checks before, with a certificate that is not revoked, has an expired certificate
      exactly if the time of expiry, read as six numbers, comes before the present one. Then it is not trusted. A
      certificate without a time of expiry never expires. */
  lemma ExpiryMeans(r: Outcome, f: NumberFormat, entries: seq<Z.Entry>, data: Z.Data,
                    certificates: map<string, Certificate>, now: string, block: Block, c: Certificate)
    requires IsDecision(r, f, Z.Success(entries), data, certificates, now) && r.Decided?
    requires ReachesCertificate(f, entries, data, block)
    requires block.publisherId in certificates && certificates[block.publisherId] == c && !c.revoked && IsTime(now)
    ensures c.expires == "" ==> r.state != ExpiredCertificate
    ensures IsTime(c.expires) ==>
              && (r.state == ExpiredCertificate <==> Earlier(MomentOf(c.expires), MomentOf(now)))
              && (Earlier(MomentOf(c.expires), MomentOf(now)) ==> r.state != Trusted)
  {
    hide BlockOf, Covered, Z.ReadBytes, Trustworthy, Signed, IsTime, MomentOf, Earlier, LexLess, ToLower;
    NoEntryNoBytes(entries, SIGNATURE_PATH, data);
    if IsTime(c.expires) {
      LexIsEarlier(c.expires, now);
      NotEmpty(c.expires);
    }
  }

  lemma NotEmpty(s: string)
    requires IsTime(s)
    ensures s != ""
  {
  }

  /** The block is accepted, and the hashes in it cover the archive. */
  ghost predicate ReachesCertificate(f: NumberFormat, entries: seq<Z.Entry>, data: Z.Data, block: Block) {
    var signature := Z.ReadBytes(entries, SIGNATURE_PATH, data);
    && signature.Success? && BlockOf(f, Z.Text(signature.value)) == Accepted(block)
    && Covered(entries, data, block.hashes)
  }

  lemma LexIsEarlier(a: string, b: string)
    requires IsTime(a) && IsTime(b)
    ensures LexLess(a, b) <==> Earlier(MomentOf(a), MomentOf(b))
  {
    DateDecides(a, b);
    TimeDecides(a, b);
    assert a[0..] == a && b[0..] == b;
    hide IsTime, LexLess, Pair;
  }

  lemma DateDecides(a: string, b: string)
    requires IsTime(a) && IsTime(b)
    ensures var m, n := MomentOf(a), MomentOf(b);
            LexLess(a[0..], b[0..])
            <==> m.year < n.year || (m.year == n.year && (m.month < n.month || (m.month == n.month
                 && (m.day < n.day || (m.day == n.day && LexLess(a[11..], b[11..]))))))
  {
    hide LexLess, Pair;
    PairStep(a, b, 0);
    PairStep(a, b, 2);
    SameStep(a, b, 4);
    PairStep(a, b, 5);
    SameStep(a, b, 7);
    PairStep(a, b, 8);
    SameStep(a, b, 10);
    PairBounds(a, 2);
    PairBounds(b, 2);
  }

  lemma TimeDecides(a: string, b: string)
    requires IsTime(a) && IsTime(b)
    ensures var m, n := MomentOf(a), MomentOf(b);
            LexLess(a[11..], b[11..])
            <==> m.hour < n.hour || (m.hour == n.hour && (m.minute < n.minute || (m.minute == n.minute
                 && m.second < n.second)))
  {
    LexNothing();
    assert a[20..] == b[20..] == "";
    hide LexLess, Pair;
    PairStep(a, b, 11);
    SameStep(a, b, 13);
    PairStep(a, b, 14);
    SameStep(a, b, 16);
    PairStep(a, b, 17);
    SameStep(a, b, 19);
  }

  lemma LexNothing()
    ensures !LexLess("", "")
  {
  }

  lemma PairBounds(s: string, i: nat)
    requires i + 2 <= |s| && '0' <= s[i] <= '9' && '0' <= s[i + 1] <= '9'
    ensures 0 <= Pair(s, i) < 100
  {
  }

  lemma SameStep(a: string, b: string, i: nat)
    requires i < |a| && i < |b| && a[i] == b[i]
    ensures LexLess(a[i..], b[i..]) <==> LexLess(a[i + 1..], b[i + 1..])
  {
    assert a[i..][1..] == a[i + 1..] && b[i..][1..] == b[i + 1..];
  }

  lemma PairStep(a: string, b: string, i: nat)
    requires i + 2 <= |a| && i + 2 <= |b|
    requires forall k :: i <= k < i + 2 ==> '0' <= a[k] <= '9' && '0' <= b[k] <= '9'
    ensures LexLess(a[i..], b[i..])
            <==> Pair(a, i) < Pair(b, i) || (Pair(a, i) == Pair(b, i) && LexLess(a[i + 2..], b[i + 2..]))
  {
    assert a[i..][1..] == a[i + 1..] && b[i..][1..] == b[i + 1..];
    assert a[i + 1..][1..] == a[i + 2..] && b[i + 1..][1..] == b[i + 2..];
  }

  predicate NewlineFree(s: string) {
    '\n' !in s
  }

  ghost predicate Lines(hashes: Hashes) {
    forall k :: k in hashes ==> NewlineFree(k) && NewlineFree(hashes[k])
  }

  ghost function FirstNewline(s: string): nat {
    if s == "" || s[0] == '\n' then 0 else 1 + FirstNewline(s[1..])
  }

  lemma {:induction false} FirstNewlineAt(a: string, x: string)
    requires NewlineFree(a)
    ensures FirstNewline(a + ("\n" + x)) == |a|
  {
    var s := a + ("\n" + x);
    if a != "" {
      assert s[0] == a[0] && s[1..] == a[1..] + ("\n" + x);
      assert a[0] in a;
      FirstNewlineAt(a[1..], x);
    } else {
      assert s[0] == '\n';
    }
  }

  lemma FirstLine(a: string, x: string, b: string, y: string)
    requires NewlineFree(a) && NewlineFree(b) && a + ("\n" + x) == b + ("\n" + y)
    ensures a == b && x == y
  {
    FirstNewlineAt(a, x);
    FirstNewlineAt(b, y);
    var s, t := a + ("\n" + x), b + ("\n" + y);
    assert s[..|a|] == a && t[..|b|] == b;
    assert s[|a| + 1..] == x && t[|b| + 1..] == y;
  }

  lemma {:induction false} SamePayload(a: seq<string>, m: Hashes, i: nat, b: seq<string>, n: Hashes, j: nat)
    requires Covers(a, m) && Covers(b, n) && Lines(m) && Lines(n) && i <= |a| && j <= |b|
    requires Payload(a, m, i) == Payload(b, n, j)
    ensures a[i..] == b[j..] && forall k :: k in a[i..] ==> m[k] == n[k]
    decreases |a| - i
  {
    if i < |a| && j < |b| {
      FirstLine(a[i], m[a[i]] + ("\n" + Payload(a, m, i + 1)), b[j], n[b[j]] + ("\n" + Payload(b, n, j + 1)));
      FirstLine(m[a[i]], Payload(a, m, i + 1), n[b[j]], Payload(b, n, j + 1));
      SamePayload(a, m, i + 1, b, n, j + 1);
      assert a[i..] == [a[i]] + a[i + 1..] && b[j..] == [b[j]] + b[j + 1..];
    }
  }

  /** Every char is one byte of a std::string. */
  ghost predicate ByteText(s: string) {
    forall i :: 0 <= i < |s| ==> s[i] as int < 0x100
  }

  lemma BytesInjective(s: string, t: string)
    requires ByteText(s) && ByteText(t) && Bytes(s) == Bytes(t)
    ensures s == t
  {
    assert |s| == |Bytes(s)| == |t|;
    forall i | 0 <= i < |s| ensures s[i] == t[i] {
      assert Bytes(s)[i] == Bytes(t)[i];
    }
  }

  lemma {:induction false} PayloadIsBytes(keys: seq<string>, hashes: Hashes, i: nat)
    requires i <= |keys| && Covers(keys, hashes) && forall k :: k in hashes ==> ByteText(k) && ByteText(hashes[k])
    ensures ByteText(Payload(keys, hashes, i))
    decreases |keys| - i
  {
    if i < |keys| {
      PayloadIsBytes(keys, hashes, i + 1);
      LineIsBytes(hashes[keys[i]], Payload(keys, hashes, i + 1));
      LineIsBytes(keys[i], hashes[keys[i]] + ("\n" + Payload(keys, hashes, i + 1)));
    }
  }

  lemma LineIsBytes(a: string, rest: string)
    requires ByteText(a) && ByteText(rest)
    ensures ByteText(a + ("\n" + rest))
  {
    var s := a + ("\n" + rest);
    assert s[|a|] == '\n' && s[|a| + 1..] == rest;
    forall i | 0 <= i < |s| ensures s[i] as int < 0x100 {
      assert i > |a| ==> s[i] == rest[i - |a| - 1];
    }
  }

  /** The bytes that are signed determine the hash list, if no path or hash contains a newline. */
  lemma PayloadInjective(a: seq<string>, m: Hashes, b: seq<string>, n: Hashes)
    requires IsKeyOrder(a, m) && IsKeyOrder(b, n) && Lines(m) && Lines(n)
    requires forall k :: k in m ==> ByteText(k) && ByteText(m[k])
    requires forall k :: k in n ==> ByteText(k) && ByteText(n[k])
    requires Bytes(Payload(a, m, 0)) == Bytes(Payload(b, n, 0))
    ensures m == n
  {
    hide Payload, LexLess, Sorted, Bytes, ByteText;
    PayloadIsBytes(a, m, 0);
    PayloadIsBytes(b, n, 0);
    BytesInjective(Payload(a, m, 0), Payload(b, n, 0));
    SamePayload(a, m, 0, b, n, 0);
    assert a[0..] == a && b[0..] == b;
    assert m.Keys == n.Keys;
    assert m == n;
  }

  /** With a newline in a path two different lists have the same payload, and so the same signature. */
  lemma NewlineCollision(h: string, g: string)
    ensures var m: Hashes := map["a" := h, "b" := g];
            var path := "a" + ("\n" + (h + ("\n" + "b")));
            var n: Hashes := map[path := g];
            && IsKeyOrder(["a", "b"], m) && IsKeyOrder([path], n) && |m| == 2 && |n| == 1
            && Payload(["a", "b"], m, 0) == Payload([path], n, 0)
  {
    var m: Hashes := map["a" := h, "b" := g];
    var path := "a" + ("\n" + (h + ("\n" + "b")));
    var n: Hashes := map[path := g];
    var keys := ["a", "b"];
    assert LexLess("a", "b") && !LexLess("b", "a");
    assert m.Keys == {"a", "b"} && n.Keys == {path};
    PayloadEnd(keys, m);
    PayloadEnd([path], n);
    var last := "b" + ("\n" + (g + ("\n" + "")));
    assert Payload(keys, m, 1) == last;
    assert path + ("\n" + (g + ("\n" + ""))) == "a" + ("\n" + (h + ("\n" + last)));
  }

  lemma PayloadEnd(keys: seq<string>, hashes: Hashes)
    requires Covers(keys, hashes)
    ensures Payload(keys, hashes, |keys|) == ""
  {
  }

  /** No path is listed twice. */
  ghost predicate DistinctPaths(elements: seq<Value>) {
    forall i, j :: 0 <= i < j < |elements| ==> ReadString(elements[i], "path") != ReadString(elements[j], "path")
  }

  /** The list holds exactly the entries, when no path is listed twice. */
  lemma {:induction false} HashesMeaning(elements: seq<Value>)
    requires DistinctPaths(elements)
    ensures var r := SignedHashes(elements);
            && (r.Some? <==> forall v :: v in elements ==> IsHashEntry(v))
            && (r.Some? ==> (forall k :: k in r.value <==> exists v :: v in elements && ReadString(v, "path") == k)
                            && forall v :: v in elements
                                 ==> r.value[ReadString(v, "path")] == ToLower(ReadString(v, "sha256")))
  {
    hide ReadString, ToLower, IsHashEntry;
    if elements != [] {
      var n := |elements| - 1;
      HashesMeaning(elements[..n]);
      assert elements == elements[..n] + [elements[n]];
      forall v | v in elements[..n] ensures ReadString(v, "path") != ReadString(elements[n], "path") {
        var i :| 0 <= i < n && elements[i] == v;
      }
    }
  }

  /** The order of the list makes no difference. */
  lemma HashesPermuted(a: seq<Value>, b: seq<Value>)
    requires multiset(a) == multiset(b) && DistinctPaths(a) && DistinctPaths(b)
    ensures SignedHashes(a) == SignedHashes(b)
  {
    SameMembers(a, b);
    HashesMeaning(a);
    HashesMeaning(b);
    hide SignedHashes, ReadString, ToLower, IsHashEntry, DistinctPaths;
    var r, s := SignedHashes(a), SignedHashes(b);
    if r.Some? {
      assert r.value.Keys == s.value.Keys;
      forall k | k in r.value ensures r.value[k] == s.value[k] {
        var v :| v in a && ReadString(v, "path") == k;
      }
      assert r.value == s.value;
    }
  }
}
