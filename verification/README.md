# Engineering repository platform: verified model

A Dafny model of the core of the repository platform: the signature and hash arithmetic, the JSON codec that every
persisted file goes through, the transaction engine over the object and relationship stores, the graph engine, export
and import, batches, the archive reader and the trust decision on a package. `dafny verify dfyconfig.toml` checks it.

| area | modules |
|---|---|
| Ed25519 over 8 x 32-bit limbs | `Words`, `ModArith`, `Limbs`, `Bits`, `Bytes`, `Field`, `EdwardsLaw`, `Curve`, `BasePoint`, `Ed25519` |
| SHA-256 and SHA-512 | `Padding`, `Sha2`, `Sha2Variants`, `Sha2Laws`, `Sha2Constants`, `Sha2Steps`, `Sha2Vectors`, `Hex` |
| JSON | `JsonValue`, `JsonParser`, `JsonLayout`, `JsonWriter`, `JsonRoundTrip` |
| Stores and transactions | `Records`, `StoreModel`, `Stores`, `Undo`, `Journal`, `JournalCodec`, `Registry`, `Repositories`, `Transactions`, `Installs`, `Runtime` |
| Graph | `Sequences`, `Sorting`, `Listing`, `Graph`, `GraphEngine` |
| Export, import, batches | `Decimals`, `ArchiveCodec`, `Archive`, `Importer`, `BatchProcessor` |
| Packages | `ZipReader`, `ZipRoundTrip`, `TrustStates`, `PackageVerifier` |

Code that changes state is a class or a method with loops, proved against functions on values; the theorems are about
these functions. How the model stands for the program:

- A field element is the value of its limbs. The working buffers are arrays of `uint32`, the intermediate sums are
  `uint64` and `int64`; Dafny accepts an operation on these only with a proof that it does not overflow.
- The prime, the curve constant and the group order are ghost constants behind functions, so that no proof depends on
  dividing by a literal of 255 bits. That the prime is prime is nowhere needed. That the standard base point decodes
  is proved by computation; `base_point.py` writes that module.
- A word of SHA-2 is a bit vector of 64 bits; the 32-bit functions cut every result. What the functions do to the bits
  and where the constants come from is proved separately, and the digests of "abc" are computed step by step;
  `sha2_vectors.py` writes the two modules `Sha2Constants` and `Sha2Vectors`.
- A `std::string` is a `string` with one `char` for each byte. A double is its bit pattern; its conversions to and
  from text belong to the C++ library and are a parameter (`NumberFormat`), of which `Standard` says the little that
  the theorems use. They are not inverse to each other.
- A directory of JSON files is a map from identifier to record; `FilesReadBack` and `JournalReadsBack` say why it may
  be. A record in it may fail validation: then it is listed and exported, but it does not load. Directories are
  enumerated in arbitrary order.
- The identifiers that the generator gives to new records are parameters (`generated`, `supply`), so that the contracts
  say exactly when a creation succeeds. The clock returns any non-empty time. Whether the file system accepts the
  write of the registry is a parameter; the write of the journal may fail at any time.
- `Transactions.Session` is everything that the runtime and the open repository hold. The operations of the engine are
  relations between sessions (`Begun`, `Logged`, `CommittedTo`, `Undone`, `Mutated`, `Bypassed`), which say of every
  component what becomes of it; the methods of the runtime are proved to be such steps.
- `FoundationRuntime.Valid` is the invariant of every run: the constructor establishes it and every method keeps it,
  the direct batches included. It says that a transaction is active only while a repository is open, that all records
  are stored under their identifiers, that the pending journal entries tell the undo log one for one in order and
  kind, that every transaction begun was closed once, and that the undo log accounts for every change since the
  transaction began unless a direct batch has written past it (`bypassed`).

## Where the code surprises

- `fe_sub(p, 0)` returns p, which is not reduced (`platform/installer/src/ed25519.cpp:281`); `Field.Sub` says so, and
  the comparison that uses it is unaffected.
- A rollback is not always complete. Undoing the deletion of a relationship needs both endpoints, and deletions do not
  cascade: "delete an object, then one of its relationships" loses the relationship and is journaled as failed.
  `Undo.OrphanDeleteIsLost` gives the case; `Undo.Rollback` says exactly what any rollback leaves.
- Undoing an update of an object gives it a new modification time.
- The header comment on `RuntimeInstallResult` says that an install is not wrapped in a transaction and may report
  partial counts. The code does wrap it, and it is all-or-nothing; the model follows the code.
- Numbers do not survive the printer, which keeps six significant digits. `JsonRoundTrip.RoundTrip` says exactly which
  values come back, and `JsonRoundTrip.SomeNumberIsLost` gives a double that does not.
- `execute_batch_create` and `execute_batch_delete` of the runtime write to the stores directly, also while a
  transaction is active, and their changes are not in the undo log. A rollback then leaves them:
  `Runtime.DirectCreationOutlivesRollback` begins, creates one object by a direct batch, rolls back, and has the object
  still there with the journal saying that all was rolled back. `Transactions.BypassSurvives` and
  `Transactions.OnlyBypassed` say what remains in general; without a direct write the rollback is that of the theorem.
- A batch deletion that lists an identifier twice passes validation, removes what comes before the repetition and
  reports a failure: `BatchProcessor.RepeatedIdentifier`. `BatchProcessor.DeletionExact` says exactly when a deletion
  is all-or-nothing.
- A batch of the transaction engine whose only failure is the journal write of its commit reports failure, but its
  objects stay.
- An import that fails while restoring leaves a cleared and partly filled destination. The export of a repository with
  a relationship to a deleted object is such an archive: `Importer.OrphanedExportFails`. `Importer.ImportExact` says
  exactly when an import either succeeds or leaves the destination alone.
- Two lists of signed hashes, one with a newline in a path, can have the same signed payload:
  `PackageVerifier.NewlineCollision`. Without newlines the payload determines the list.

## Model

| member | source | states |
|---|---|---|
| Field.Add | platform/installer/src/ed25519.cpp:86-109 | for all 256-bit operands the result is the residue of a + b below p; no 64-bit intermediate overflows and the loops end |
| Field.Sub | platform/installer/src/ed25519.cpp:111-125 | for operands up to p itself the result is a - b, plus p only when negative |
| Field.SubRaw | platform/installer/src/ed25519.cpp:73-84 | in-place subtraction with borrow computes the exact difference |
| Field.FoldCarry | platform/installer/src/ed25519.cpp:94-104 | folding the carry back keeps the number modulo p, by a decreasing value |
| Field.Reduce | platform/installer/src/ed25519.cpp:105-107 | subtracting p while possible gives the residue |
| Field.MulRow | platform/installer/src/ed25519.cpp:131-139 | one row of the schoolbook product adds exactly x times b at its place, with no overflow |
| Field.MulWide | platform/installer/src/ed25519.cpp:128-140 | the 16 limbs hold the exact product |
| Field.Mul | platform/installer/src/ed25519.cpp:127-165 | for all 256-bit operands the result is the residue of a * b below p |
| Field.Pow | platform/installer/src/ed25519.cpp:168-179 | square-and-multiply over 256 bits gives base to the exponent mod p |
| EdwardsLaw.SumOnCurve | platform/installer/src/ed25519.cpp:212-229 | the addition formula keeps X*Y = Z*T and the curve equation, for any modulus |
| EdwardsLaw.SumCommutes | platform/installer/src/ed25519.cpp:212-229 | the addition formula is commutative |
| EdwardsLaw.SumOfScaled | platform/installer/src/ed25519.cpp:212-229 | scaling the operands scales the sum: the formula respects projective equality |
| EdwardsLaw.SimilarSum | platform/installer/src/ed25519.cpp:212-229 | sums of similar points are similar |
| EdwardsLaw.AffineLaw | platform/installer/src/ed25519.cpp:212-229 | on affine points the formula is the complete Edwards addition law |
| EdwardsLaw.SumWithNegative | platform/installer/src/ed25519.cpp:212-229 | a point plus its negative is the neutral point |
| EdwardsLaw.NeutralIsNeutral | platform/installer/src/ed25519.cpp:212-229 | the neutral point plus a point of the curve is that point |
| EdwardsLaw.MultipleOnCurve | platform/installer/src/ed25519.cpp:232-242 | recursive double-and-add stays on the curve |
| EdwardsLaw.MultipleLaws | platform/installer/src/ed25519.cpp:232-242 | 0 times a point is neutral, 1 times is the point, 2n and 2n + 1 times are what doubling and adding give, up to projective equality |
| Curve.PointAdd | platform/installer/src/ed25519.cpp:212-229 | the limb code computes the formula of RFC 8032 section 5.1.4 mod p, reduced |
| Curve.PointAddCommutes | platform/installer/src/ed25519.cpp:212-229 | adding in either order gives the same limbs |
| Curve.KeepsCurve | platform/installer/src/ed25519.cpp:212-229 | the limb result of adding two points of the curve is on the curve |
| Curve.ScalarMul | platform/installer/src/ed25519.cpp:232-242 | the 256-step ladder equals recursive double-and-add up to an invertible factor, and stays on the curve |
| Curve.PointEqual | platform/installer/src/ed25519.cpp:244-251 | true exactly when the cross products agree mod p |
| Curve.SquareIsMinusOne | platform/installer/src/ed25519.cpp:45-48 | the constant squared is -1 mod p |
| Curve.CurveConstant | platform/installer/src/ed25519.cpp:40-43 | the constant d is -121665/121666 mod p |
| Curve.Decompress | platform/installer/src/ed25519.cpp:255-306 | accepts exactly the decodable encodings, and returns reduced coordinates, T = x*y, the sign bit and the same 32 bytes |
| Curve.DecodableMeans | platform/installer/src/ed25519.cpp:255-298 | with u = y^2 - 1 and v = d y^2 + 1: an encoding is accepted exactly if y is below p, u (u v^7)^((p-1)/4) is u or -u mod p, and not y^2 = 1 with the sign bit set |
| Curve.DecodedOnCurve | platform/installer/src/ed25519.cpp:255-306 | every decoded point satisfies the curve equation and has an invertible Z |
| Curve.EncodingUnique | platform/installer/src/ed25519.cpp:255-306 | a decoded point has only one encoding |
| BasePoint.RootPower | platform/installer/src/ed25519.cpp:273-278 | the value of the exponentiation to (p - 5) / 8 that decoding the base point takes, by a chain of squarings |
| BasePoint.BaseDecodes | platform/installer/src/ed25519.cpp:308-322 | the standard encoding decodes, to the point with y = 4/5 and the even x of RFC 8032 section 5.1 |
| Ed25519.ShiftIn | platform/installer/src/ed25519.cpp:331-340 | one shift of the remainder loses no bit |
| Ed25519.ReduceModL | platform/installer/src/ed25519.cpp:328-347 | binary long division returns the 512-bit number mod L |
| Ed25519.Verify | platform/installer/src/ed25519.cpp:351-387 | accepts exactly when S is below L, R and A decode, and [S]B = R + [k]A with k the reduced SHA-512 of R, A and the message, RFC 8032 section 5.1.7 |
| Ed25519.AcceptsMeans | platform/installer/src/ed25519.cpp:351-387 | the whole equation: which 32 bytes are R and S, what is hashed in which order, and the two cross products mod p that have to agree |
| Padding.PadMessage | platform/installer/src/sha512.cpp:47-58 | the padding loops append exactly what FIPS 180-4 sections 5.1.1 and 5.1.2 prescribe |
| Padding.PadWholeBlocks | platform/installer/src/sha256.cpp:34-45 | a padded message is a whole number of blocks, fewer than two more than needed |
| Padding.UnpadPad | platform/installer/src/sha256.cpp:34-45 | padding can be undone for every message below 2^61 bytes |
| Padding.PadInjective | platform/installer/src/sha512.cpp:44-58 | different messages below 2^61 bytes have different paddings |
| Sha2.Schedule | platform/installer/src/sha512.cpp:61-74 | the schedule filled in place is the recurrence of sections 6.2.2 and 6.4.2 |
| Sha2.RunRounds | platform/installer/src/sha512.cpp:85-101 | rotating a to h in place equals the recursive rounds |
| Sha2.HashBlocks | platform/installer/src/sha512.cpp:60-111 | the block loop is the iterated compression |
| Sha2Laws.ChoiceOf32 | platform/installer/src/sha256.cpp:73 | Ch on any set of bit positions: where x is 1 it is y, where x is 0 it is z |
| Sha2Laws.ChoiceOf64 | platform/installer/src/sha512.cpp:87 | the same for 64 bits |
| Sha2Laws.Majority | platform/installer/src/sha256.cpp:76 | Maj on any set of bit positions: where two of the three agree they decide |
| Sha2Laws.RotatedBit32 | platform/installer/src/sha256.cpp:23-25 | bit i of rotr(x, n) is bit (i + n) mod 32 of x, for the ten counts in use |
| Sha2Laws.RotatedBit64 | platform/installer/src/sha512.cpp:32-34 | bit i of rotr(x, n) is bit (i + n) mod 64 of x, for the ten counts in use |
| Sha2Constants.Constants256 | platform/installer/src/sha256.cpp:12-21 | constant i is the first 32 bits of the fractional part of the cube root of prime number i |
| Sha2Constants.Constants512 | platform/installer/src/sha512.cpp:9-30 | constant i is the first 64 bits of the fractional part of the cube root of prime number i |
| Sha2Constants.Initial256 | platform/installer/src/sha256.cpp:30-32 | the initial words are the first 32 bits of the fractional parts of the square roots of the first eight primes |
| Sha2Constants.Initial512 | platform/installer/src/sha512.cpp:39-42 | the same with 64 bits |
| Sha2Variants.HashSha512 | platform/installer/src/sha512.cpp:38-120 | the 64 bytes are the digest of the padded message |
| Sha2Variants.HashSha256 | platform/installer/src/sha256.cpp:29-97 | the 32 bytes are the digest of the padded message |
| Sha2Vectors.Abc256 | tests/installer/sha256_tests.cpp:29 | the SHA-256 digest of "abc", computed through all 64 rounds, is ba7816bf...15ad |
| Sha2Vectors.Abc512 | tests/installer/sha512_tests.cpp:37-39 | the SHA-512 digest of "abc", computed through all 80 rounds, is ddaf35a1...a49f |
| Hex.EncodeHex | platform/installer/src/sha256.cpp:99-109 | two lower-case digits for every byte, in order |
| Hex.HexToBytes | platform/installer/src/package_verifier.cpp:27-47 | reads pairs of digits of either case, and nothing else |
| Hex.HexBack | platform/installer/src/package_verifier.cpp:27-47 | reading hexadecimal undoes writing it |
| Hex.HexIsLower | platform/installer/src/package_verifier.cpp:49-54 | lower-casing leaves a written digest alone |
| Hex.HexAt | platform/installer/src/sha256.cpp:99-109 | the two characters of byte i are its higher and its lower hexadecimal digit |
| Hex.FromHexMeans | platform/installer/src/package_verifier.cpp:27-47 | a text reads as the bytes exactly if, in lower case, it is what the bytes are written as |
| Hex.LetterLowered | platform/installer/src/package_verifier.cpp:49-54 | lower-casing turns every capital letter into its small one |
| Hex.OthersStay | platform/installer/src/package_verifier.cpp:49-54 | and leaves every other character alone |
| JsonValue.Find | platform/repository/src/json_value.cpp:68-78 | the first member with the key, if there is one |
| JsonParser.Parser.ParseString | platform/repository/src/json_value.cpp:220-279 | the loop reads what the grammar rule reads, with the same error and offset |
| JsonParser.Parser.ParseCodePoint | platform/repository/src/json_value.cpp:244-254 | four digits of either case, or an error at the escape |
| JsonParser.Parser.ParseNumber | platform/repository/src/json_value.cpp:304-318 | the longest token of number characters goes to the library |
| JsonParser.Parser.ParseValue | platform/repository/src/json_value.cpp:129-150 | dispatch on the first character, against the grammar |
| JsonParser.Parser.ParseArray | platform/repository/src/json_value.cpp:190-218 | the element loop reads what the recursive rule reads, with the same error and offset |
| JsonParser.Parser.ParseObject | platform/repository/src/json_value.cpp:152-188 | the member loop reads what the recursive rule reads, with the same error and offset |
| JsonParser.ParseText | platform/repository/src/json_value.cpp:392-395 | one value between white space and nothing after it |
| JsonParser.Utf8PrefixFree | platform/repository/src/json_value.cpp:256-266 | different code points have encodings of which none is a prefix of another |
| JsonParser.Utf8Means | platform/repository/src/json_value.cpp:256-266 | 1, 2 or 3 bytes as the code point is below 0x80, below 0x800 or above; their ranges; and the payload bits are the code point |
| JsonLayout.LaidReads | platform/repository/src/json_value.cpp:129-318 | wherever a value is laid out, with any of the six white space characters between tokens and any spelling of its strings, it is read up to its end; a number must not be continued by what follows |
| JsonLayout.LaidFound | platform/repository/src/json_value.cpp:129-318 | wherever the parser reads a value, one is laid out |
| JsonLayout.ParseMeans | platform/repository/src/json_value.cpp:392-395 | parsing gives v exactly for the texts that lay out v, the layouts being defined without the functions of the parser |
| JsonWriter.Writer.WriteEscapedString | platform/repository/src/json_value.cpp:321-334 | appends the quoted and escaped string |
| JsonWriter.Writer.WriteValue | platform/repository/src/json_value.cpp:336-388 | appends the printed form, indented |
| JsonWriter.SerializeValue | platform/repository/src/json_value.cpp:397-402 | the printed form and a newline |
| JsonWriter.QuotedOnOneLine | platform/repository/src/json_value.cpp:321-334 | no line feed, carriage return or tab stands in a printed string as it is |
| JsonWriter.PrintedObject | platform/repository/src/json_value.cpp:336-402 | the layout of a small document: two spaces a level, one element or member a line |
| JsonRoundTrip.StringReadsBack | platform/repository/src/json_value.cpp:220-334 | a string of any bytes is read back verbatim |
| JsonRoundTrip.ReadsBack | platform/repository/src/json_value.cpp:129-388 | wherever a printed value stands, the parser reads it and stops exactly behind it |
| JsonRoundTrip.ParseSerialize | platform/repository/src/json_value.cpp:392-402 | parsing a printed value gives it with its numbers reread, or fails if one of them cannot be read |
| JsonRoundTrip.RoundTrip | platform/repository/src/json_value.cpp:392-402 | parse(serialize(v)) is v exactly when each number of v is reread as itself |
| JsonRoundTrip.NumberFreeRoundTrip | platform/repository/src/json_value.cpp:392-402 | every value without numbers comes back, at any nesting |
| JsonRoundTrip.SerializeInjective | platform/repository/src/json_value.cpp:397-402 | no two values that survive are printed alike |
| JsonRoundTrip.PrintedAlike | platform/repository/src/json_value.cpp:384-386 | of the doubles that are printed alike only the one the text is read as comes back |
| JsonRoundTrip.SomeNumberIsLost | platform/repository/src/json_value.cpp:384-386 | 1 and the next double are printed alike; the text is read as 1, so the other comes back as 1 |
| Records.UuidMeans | platform/repository/src/uuid.cpp:12-41 | an identifier is valid exactly if it follows the version 4 pattern, place by place |
| Records.VersionMeans | platform/repository/src/metadata.cpp:16 | a version is valid exactly if it is three runs of decimal digits joined by dots |
| Stores.AuditStore.RecordEvent | platform/repository/src/audit_store.cpp:117-147 | offers one event of the kind under a generated identifier: it is added unless the identifier is taken or the subject is no UUID, and nothing else changes |
| Stores.ObjectStore.Create | platform/repository/src/object_store.cpp:145-179 | succeeds exactly if identifier, name and version are valid and the identifier free; stores the record with identifier and times filled in, and notes the creation in the audit log |
| Stores.ObjectStore.Restore | platform/repository/src/object_store.cpp:181-204 | stores the record unchanged, exactly if it is valid and its identifier free |
| Stores.ObjectStore.Update | platform/repository/src/object_store.cpp:225-251 | keeps type and creation time, always refreshes the modification time, and notes the update in the audit log |
| Stores.ObjectStore.Remove | platform/repository/src/object_store.cpp:253-267 | removes exactly the record and notes the deletion in the audit log |
| Stores.RelationshipStore.Create | platform/repository/src/relationship_store.cpp:121-159 | succeeds exactly if the record is valid, both endpoints load and the identifier is free; stores it filled in and notes the creation in the audit log |
| Stores.RelationshipStore.Restore | platform/repository/src/relationship_store.cpp:161-191 | the same without filling in, with the reason for a refusal |
| Stores.RelationshipStore.Update | platform/repository/src/relationship_store.cpp:212-240 | changes author and description only, and notes the update in the audit log |
| Undo.ObjectsUndone | platform/runtime/src/foundation_runtime.cpp:96-120 | at every step of a rollback the objects are those of the state being restored, and no object step fails |
| Undo.RelationshipsUndone | platform/runtime/src/foundation_runtime.cpp:96-120 | at every step the relationships are those of the state being restored except the orphaned, and the undo is complete so far exactly when there was no orphan deletion |
| Undo.Rollback | platform/runtime/src/foundation_runtime.cpp:96-132 | for any transaction: every object is back, with a new modification time exactly if its first entry is an update; the relationships are the old ones minus exactly those first deleted with an endpoint gone; complete exactly if no deletion was of that kind |
| Undo.RollbackExact | platform/runtime/src/foundation_runtime.cpp:96-132 | without such deletions and without object updates the stores are exactly as before |
| Undo.CreationsLeaveNoTrace | platform/runtime/src/foundation_runtime.cpp:351-423 | a transaction that only created is undone exactly and never fails |
| Undo.OrphanDeleteIsLost | platform/repository/src/relationship_store.cpp:167-172 | deleting an object and then its relationship cannot be rolled back completely |
| Undo.RefreshedWasValid | platform/runtime/src/foundation_runtime.cpp:103-105 | only an object that was loaded, and so is valid, gets a new modification time |
| Undo.UndoKeepsUnlogged | platform/runtime/src/foundation_runtime.cpp:96-120 | replaying any log on any stores changes no record that the log does not mention |
| Transactions.LoggedConsistent | platform/runtime/src/foundation_runtime.cpp:783-788 | logging a mutation keeps the invariant, the accounting of the log included |
| Transactions.MutationTold | platform/runtime/src/foundation_runtime.cpp:788-985 | what the journal says of each kind of mutation: its name, the identifier, and the states before and after |
| Transactions.ClosedAfterUndo | platform/runtime/src/foundation_runtime.cpp:96-132 | undoing the log and closing accordingly is a rollback and keeps the invariant |
| Transactions.MutationSucceeds | platform/runtime/src/foundation_runtime.cpp:774-794 | a mutation outside a transaction is a committed transaction of its own, which tells it |
| Transactions.MutationFails | platform/runtime/src/foundation_runtime.cpp:779-782 | a mutation that fails outside a transaction changes no store; inside it everything since the beginning is rolled back |
| Transactions.CreatingMore | platform/runtime/src/foundation_runtime.cpp:351-423 | creations add exactly the new records under identifiers that were free and are distinct |
| Transactions.CreationsUndone | platform/runtime/src/foundation_runtime.cpp:351-423 | a transaction of creations leaves no trace in the stores when it is rolled back, and its record says so |
| Transactions.BypassSurvives | platform/runtime/src/foundation_runtime.cpp:686-735 | after direct writes a rollback restores no record that the log does not mention |
| Transactions.OnlyBypassed | platform/runtime/src/foundation_runtime.cpp:686-735 | with direct writes only, a rollback brings back the beginning exactly if they changed nothing, and is journaled as complete in either case |
| Journal.TransactionJournal.Write | platform/runtime/src/transaction_journal.cpp:116-143 | replaces the record of the transaction, or fails and changes nothing |
| Journal.TransactionJournal.List | platform/runtime/src/transaction_journal.cpp:145-172 | every record once, ordered by opening time and identifier |
| JournalCodec.JournalReadsBack | platform/runtime/src/transaction_journal.cpp:21-95 | a journaled record is read back from its file as it was written |
| Registry.RepositoryRegistry.RecordInstall | platform/installer/src/repository_registry.cpp:148-181 | records a package exactly if it has an identifier that is not there yet and the file system accepts the write; otherwise nothing changes |
| Registry.RepositoryRegistry.FindOwner | platform/installer/src/repository_registry.cpp:228-245 | an installed package that lists the identifier, or none exactly if no package lists it |
| Runtime.FoundationRuntime.constructor | platform/runtime/src/foundation_runtime.cpp:26-27 | establishes the invariant of every run |
| Runtime.FoundationRuntime.OpenTransactionInternal | platform/runtime/src/foundation_runtime.cpp:55-63 | begins a transaction with an empty log at the present contents |
| Runtime.FoundationRuntime.LogMutation | platform/runtime/src/foundation_runtime.cpp:65-77 | appends the mutation to the log and one entry to the pending record, with operation, target and both states |
| Runtime.FoundationRuntime.CommitTransactionInternal | platform/runtime/src/foundation_runtime.cpp:79-94 | closes the transaction once as committed and changes nothing else; the journal takes the record or is as it was |
| Runtime.FoundationRuntime.UndoLog | platform/runtime/src/foundation_runtime.cpp:96-120 | the backward loop over the log is the replay of the theorems, whatever the stores hold |
| Runtime.FoundationRuntime.RollbackTransactionInternal | platform/runtime/src/foundation_runtime.cpp:96-132 | closes the transaction by replaying its log; the closing record, which the journal takes or not, says RolledBack exactly if every step succeeded, and without direct writes this is the rollback of the theorem |
| Runtime.FoundationRuntime.ResetRepositoryContext | platform/runtime/src/foundation_runtime.cpp:33-53 | leaving a repository rolls an active transaction back first, leaves none, and leaves a sound repository |
| Runtime.FoundationRuntime.Initialize | platform/runtime/src/foundation_runtime.cpp:134-140 | only from the uninitialized state |
| Runtime.FoundationRuntime.OpenRepository | platform/runtime/src/foundation_runtime.cpp:142-207 | only from two states and with valid metadata; no transaction is active then |
| Runtime.FoundationRuntime.CloseRepository | platform/runtime/src/foundation_runtime.cpp:209-217 | only when open; leaves no transaction, and a repository that can be opened again |
| Runtime.FoundationRuntime.ShutDown | platform/runtime/src/foundation_runtime.cpp:219-227 | once, from any state; leaves no transaction |
| Runtime.FoundationRuntime.CreateObject | platform/runtime/src/foundation_runtime.cpp:752-795 | succeeds exactly when open, with a name and a free identifier; success is one logged step, or a committed transaction of its own; failure inside a transaction rolls back all of it and deactivates it, failure outside changes no store; the journal has the closing record or is as it was |
| Runtime.FoundationRuntime.UpdateObject | platform/runtime/src/foundation_runtime.cpp:797-840 | succeeds exactly when the object loads and the name is not empty; the same effects, logging the record as it was before |
| Runtime.FoundationRuntime.DeleteObject | platform/runtime/src/foundation_runtime.cpp:842-875 | succeeds exactly when the object loads; the same effects |
| Runtime.FoundationRuntime.CreateRelationship | platform/runtime/src/foundation_runtime.cpp:877-914 | succeeds exactly when the endpoints differ and load and the identifier is free; the same effects |
| Runtime.FoundationRuntime.UpdateRelationship | platform/runtime/src/foundation_runtime.cpp:916-956 | succeeds exactly when the relationship loads, and changes author and description only; the same effects |
| Runtime.FoundationRuntime.DeleteRelationship | platform/runtime/src/foundation_runtime.cpp:958-992 | succeeds exactly when the relationship loads; the same effects |
| Runtime.FoundationRuntime.BeginTransaction | platform/runtime/src/foundation_runtime.cpp:994-1003 | refused unless a repository is open and no transaction is active |
| Runtime.FoundationRuntime.CommitTransaction | platform/runtime/src/foundation_runtime.cpp:1005-1013 | closes the transaction with a record that tells the whole log |
| Runtime.FoundationRuntime.RollbackTransaction | platform/runtime/src/foundation_runtime.cpp:1015-1024 | closes the transaction by a rollback |
| Runtime.FoundationRuntime.BatchCreateObjects | platform/runtime/src/foundation_runtime.cpp:1061-1092 | the index that failed is the first with no name or a taken identifier; without one every specification is made in order; otherwise everything since the transaction began is rolled back, exactly as before if the batch began it |
| Runtime.FoundationRuntime.ExecuteBatchCreate | platform/runtime/src/foundation_runtime.cpp:701-717 | carries out the request directly on the stores and keeps the invariant, also inside a transaction |
| Runtime.FoundationRuntime.ExecuteBatchDelete | platform/runtime/src/foundation_runtime.cpp:719-735 | the same for a deletion |
| Runtime.DirectCreationOutlivesRollback | platform/runtime/src/foundation_runtime.cpp:701-717 | begin, one direct creation, rollback: the object stays and the record says RolledBack |
| Installs.InstalledLoads | platform/repository/src/relationship_store.cpp:134-139 | with the objects of a package installed, an endpoint loads exactly if it did before or is one of them |
| Installs.RefusedRelationship | platform/runtime/src/foundation_runtime.cpp:368-384 | a relationship that is refused was not installable |
| Installs.InstallCompleted | platform/runtime/src/foundation_runtime.cpp:386-430 | the registry entry and the commit complete an install |
| Runtime.FoundationRuntime.InstallPackage | platform/runtime/src/foundation_runtime.cpp:290-439 | succeeds exactly when open without a transaction, the archive is allowed, the package is new, every record can be created and the registry can be written; then the entry lists exactly the new identifiers in order; otherwise both stores and the registry are as before |
| Runtime.FoundationRuntime.VerifyPackage | platform/runtime/src/foundation_runtime.cpp:465-529 | counts the contributions that load; verified exactly if all do and an available archive has the recorded hash |
| Runtime.InstallThenVerify | platform/runtime/src/foundation_runtime.cpp:290-529 | right after an install the package verifies with all contributions present, as long as the archive is unchanged |
| Runtime.AllPresent | platform/runtime/src/foundation_runtime.cpp:524-527 | the count equals the number recorded exactly when none is missing |
| Sorting.LexTotal | platform/repository/src/graph_engine.cpp:11-14 | the string order is total and asymmetric |
| Sorting.LexMeans | platform/repository/src/graph_engine.cpp:11-14 | one string is less than another exactly if at the first place where they differ it ends or has the smaller character |
| Sorting.Sort | platform/repository/src/graph_engine.cpp:44-46 | sorted and a permutation |
| Sorting.SortedUnique | platform/archive/src/repository_exporter.cpp:55-63 | sorting by an order that tells different elements apart has one result |
| Graph.AdjacentMeaning | platform/repository/src/graph_engine.cpp:33-42 | two nodes are adjacent exactly when a relationship joins them, in either direction |
| Graph.GraphSymmetricClosed | platform/repository/src/graph_engine.cpp:33-42 | the adjacency is symmetric and names nodes only |
| Graph.ReachableEquivalence | platform/repository/src/graph_engine.cpp:125-144 | being connected is an equivalence relation |
| Graph.GraphUnique | platform/repository/src/graph_engine.cpp:18-47 | the lists do not depend on the order of enumeration |
| Graph.NeighborsAscend | platform/repository/src/graph_engine.cpp:11-46 | every list ascends by the identifier of the neighbour, and for one neighbour by that of the relationship |
| GraphEngine.GraphEngine.BuildGraph | platform/repository/src/graph_engine.cpp:18-47 | the graph has every object as a node and, sorted, exactly the edges between nodes |
| GraphEngine.GraphDetermined | platform/repository/src/graph_engine.cpp:18-47 | the graph is a function of the stores |
| GraphEngine.GraphEngine.TraverseBreadthFirst | platform/repository/src/graph_engine.cpp:65-90 | lists exactly the reachable nodes, each once, in non-decreasing shortest-path distance |
| GraphEngine.SearchComplete | platform/repository/src/graph_engine.cpp:77-87 | when the queue is empty, every walk ends at a node found with at most its length |
| GraphEngine.PreorderJoin | platform/repository/src/graph_engine.cpp:92-123 | the recursive search of two lists is that of one after the other |
| GraphEngine.UnseenSuffice | platform/repository/src/graph_engine.cpp:112-119 | leaving out seen neighbours when pushing makes no difference |
| GraphEngine.VisitTop | platform/repository/src/graph_engine.cpp:103-120 | one turn of the stack loop keeps the rest of the preorder |
| GraphEngine.PreorderReachable | platform/repository/src/graph_engine.cpp:92-123 | the recursive preorder lists exactly the reachable nodes, each once |
| GraphEngine.GraphEngine.TraverseDepthFirst | platform/repository/src/graph_engine.cpp:92-123 | the explicit stack, with duplicates on it, gives exactly the recursive preorder |
| GraphEngine.TraversalsAgree | platform/repository/src/graph_engine.cpp:65-123 | the two traversals are permutations of each other |
| GraphEngine.GraphEngine.PathExists | platform/repository/src/graph_engine.cpp:125-144 | true exactly when connected |
| Decimals.StoiToString | platform/archive/src/archive_codec.cpp:14-22 | std::stoi undoes std::to_string on the whole range of int |
| ArchiveCodec.ObjectBack | platform/archive/src/archive_codec.cpp:98-130 | decoding an encoded object gives it back |
| ArchiveCodec.RelationshipBack | platform/archive/src/archive_codec.cpp:132-161 | decoding an encoded relationship gives it back |
| ArchiveCodec.EventBack | platform/archive/src/archive_codec.cpp:163-189 | decoding an encoded audit event gives it back |
| ArchiveCodec.MetadataBack | platform/archive/src/archive_codec.cpp:66-96 | decoding encoded metadata gives it back |
| ArchiveCodec.ManifestBack | platform/archive/src/archive_codec.cpp:42-64 | decoding an encoded manifest gives it back, counts included |
| ArchiveCodec.PackageBack | platform/archive/src/archive_codec.cpp:191-225 | decoding an encoded package manifest gives it back |
| ArchiveCodec.AbsentFields | platform/archive/src/archive_codec.cpp:9-33 | a field that is missing, or of another kind, reads as empty, or as 0 |
| ArchiveCodec.FilesReadBack | platform/repository/src/object_store.cpp:69-127 | a record read from its file is the record written |
| Archive.ExportRepository | platform/archive/src/repository_exporter.cpp:23-126 | the text is the serialized document of every record once, each section in its natural order, with the loaded packages if they are exported |
| Archive.ExportDeterministic | platform/archive/src/repository_exporter.cpp:55-104 | for one timestamp the text does not depend on the order of enumeration, if no two packages have the same identifier |
| Archive.ManifestCounts | platform/archive/src/repository_exporter.cpp:65-72 | the manifest says version 1.0, the identifier and version of the repository, and as counts the sizes of its stores, below 2^31 |
| Archive.SectionsAscend | platform/archive/src/repository_exporter.cpp:40-63 | every section ascends: audit events by time and then identifier, all others by identifier |
| Archive.ReadArchive | platform/archive/src/repository_importer.cpp:40-125 | all checks before the first write, in their order, the packages included |
| Archive.DecodeExport | platform/archive/src/repository_importer.cpp:40-125 | reading an exported text gives back manifest, metadata and every record; it is refused exactly if a count wraps to a negative 32-bit number |
| Importer.RestoreAllAdds | platform/archive/src/repository_importer.cpp:156-176 | restoring succeeds exactly when all records are valid and their identifiers new and distinct, and adds exactly these |
| Importer.RestoreAllStops | platform/archive/src/repository_importer.cpp:156-176 | otherwise exactly the records before the first that is refused are restored |
| Importer.RestorableExactly | platform/archive/src/repository_importer.cpp:156-176 | the three loops get through exactly if all records are valid, identifiers are distinct and every endpoint is among the objects |
| Importer.RestoreExported | platform/archive/src/repository_importer.cpp:156-176 | restoring an exported repository succeeds exactly when every record is valid and both endpoints of every relationship are there, and reproduces everything |
| Importer.ImportRepository | platform/archive/src/repository_importer.cpp:30-195 | what is on disk afterwards, in every case: untouched if the archive is refused or the place is taken, otherwise what the restore loops make of an empty place |
| Importer.ImportExact | platform/archive/src/repository_importer.cpp:30-195 | when an import succeeds, and when it either succeeds or leaves the destination alone, both exactly |
| Importer.OrphanedExportFails | platform/archive/src/repository_importer.cpp:164-170 | an exported repository whose import stops half way |
| Importer.ExportThenImport | platform/archive/src/repository_importer.cpp:73-176 | the round trip of a whole repository |
| BatchProcessor.ValidateBatchCreate | platform/repository/src/batch_processor.cpp:108-155 | reports exactly the findings that are true, and none exactly if the request is sound |
| BatchProcessor.CreateObjects | platform/repository/src/batch_processor.cpp:164-183 | every object made as specified under its generated identifier and its reference bound to it, up to the first identifier that is taken |
| BatchProcessor.EndpointsReady | platform/repository/src/batch_processor.cpp:186-191 | in a sound request every endpoint resolves to an existing object, and the two differ |
| BatchProcessor.ExecuteBatchCreate | platform/repository/src/batch_processor.cpp:157-204 | a request is carried out completely exactly if it is sound and the generated identifiers are free and distinct; one with findings does nothing, and any other stops at the first identifier that is taken |
| BatchProcessor.ExecuteBatchDelete | platform/repository/src/batch_processor.cpp:206-244 | nothing if an identifier does not load; otherwise relationships and then objects are removed one by one up to a repetition |
| BatchProcessor.DeleteAllStops | platform/repository/src/batch_processor.cpp:223-241 | removing one by one takes exactly what comes before the first repetition |
| BatchProcessor.DeletionExact | platform/repository/src/batch_processor.cpp:206-244 | complete exactly if everything loads and nothing is listed twice; all-or-nothing exactly if something does not load or nothing is listed twice; what is left in every case |
| BatchProcessor.RepeatedIdentifier | platform/repository/src/batch_processor.cpp:233-241 | an object listed twice is gone although a failure is reported |
| ZipReader.FindEndOfCentralDirectory | platform/installer/src/zip_reader.cpp:61-80 | the greatest matching offset in the window, or none |
| ZipReader.Open | platform/installer/src/zip_reader.cpp:87-140 | the directory named by the last end record, for any bytes and without a read outside them |
| ZipReader.Find | platform/installer/src/zip_reader.cpp:155-162 | an entry with the name exactly if there is one |
| ZipReader.FindFirst | platform/installer/src/zip_reader.cpp:155-162 | of several entries with the name the first |
| ZipRoundTrip.BuiltOpens | platform/installer/src/zip_reader.cpp:61-140 | opening a built archive of items with any method, extra fields, comments and skipped fields gives their names, methods, sizes and offsets in order |
| ZipRoundTrip.BuiltReadsBack | platform/installer/src/zip_reader.cpp:164-204 | the name of an item gives its bytes back if its method is 0, and the error of an unsupported compression otherwise |
| ZipRoundTrip.StoredFits | tests/api/oep_api_tests.cpp:91-142 | what the builder of the tests writes is such an archive |
| PackageVerifier.CheckCoverage | platform/installer/src/package_verifier.cpp:143-168 | full exactly if the hash list and the archive outside signatures/ cover each other with matching hashes |
| PackageVerifier.OrderedKeys | platform/installer/src/package_verifier.cpp:207-213 | the paths in the order of std::map |
| PackageVerifier.KeyOrderUnique | platform/installer/src/package_verifier.cpp:207-213 | there is one such order, so the signed payload is a function of the list |
| PackageVerifier.CheckSignature | platform/installer/src/package_verifier.cpp:204-234 | true exactly if key and signature are well formed and Ed25519 accepts the canonical payload |
| PackageVerifier.VerifyPackageTrust | platform/installer/src/package_verifier.cpp:80-241 | trusted exactly if coverage, certificate, key and signature checks all pass; unsigned exactly if there is no signature block; tampered, unknown, revoked, expired and invalid each exactly if their check is the first to fail |
| PackageVerifier.ExpiryMeans | platform/installer/src/package_verifier.cpp:181-195 | after the earlier checks, and with a certificate that is not revoked, the state is expired exactly if the six numbers of the time of expiry come before those of now; it is not trusted then; an empty time never expires |
| PackageVerifier.PayloadInjective | platform/installer/src/package_verifier.cpp:204-213 | the signed bytes determine the hash list when no path or hash contains a newline |
| PackageVerifier.NewlineCollision | platform/installer/src/package_verifier.cpp:204-213 | with a newline in a path two different lists have the same payload |
| PackageVerifier.HashesPermuted | platform/installer/src/package_verifier.cpp:121-138 | the order of the signed hash list makes no difference when no path is listed twice |

## Left out

- Mathematics the code does not carry: that p and L are primes, that the group law is associative, and that every square has its root found.
- `fe_from_hex` and `fe_invert`: the constants are given as limbs, and the inversion is unused.
- The text of error messages, except that the parser's message and offset are kept; results that carry an error code in the source carry a constructor or a flag here.
- Real file systems: temporary files, failed renames, unreadable directories. Only the journal and registry writes may fail.
- Runtime.FoundationRuntime.OpenRepository: files that do not parse, or that hold a record with another identifier than their name, are not in the model's stores.
- GraphEngine.GraphEngine.BuildGraph: the same files are not in the model; records that parse but fail validation are.
- Archive.ExportRepository: the same; which packages are loaded is a parameter, since package discovery is not part of this model.
- Runtime.FoundationRuntime.InstallPackage: extraction, trust, policy and archive hash are inputs, and the index rebuild after a success is not modelled.
- `batch_create_relationships`: the same loop as `batch_create_objects` over the other store.
- Search, package discovery, templates, trust store administration, the repository validator, the C interface and the command line.
- Importer.ImportRepository: the identifier of a package is the name of one directory, whatever characters it has.
- PackageVerifier.VerifyPackageTrust: the archive is read once, where the source opens the file again for every entry, and the trust store can always be read.
- `parse_batch_create_request` and `parse_batch_delete_request`: the request is given as records.
- ZipRoundTrip.BuiltOpens: lengths and offsets fit their fields, no second end record hides in the comment of the archive, and names are distinct where contents are read.
- Freshness of the graph after single mutations: the code rebuilds it only on opening and after an install.
