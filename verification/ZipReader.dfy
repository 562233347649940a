/** The reader of ZIP archives with stored entries, over the bytes of the archive file. */
module ZipReader {
  import opened Options
  import opened Words

  const END_SIGNATURE := 0x06054b50
  const CENTRAL_SIGNATURE := 0x02014b50
  const LOCAL_SIGNATURE := 0x04034b50

  const END_SIZE := 22
  const CENTRAL_SIZE := 46
  const LOCAL_SIZE := 30
  const MAX_COMMENT := 65535

  type Data = seq<byte>

  datatype Entry = Entry(name: string, compression: nat, compressedSize: nat, uncompressedSize: nat, localHeader: nat)

  /** Bytes as a std::string. */
  function Text(bytes: Data): (s: string)
    ensures |s| == |bytes| && forall i :: 0 <= i < |s| ==> s[i] as int == bytes[i] as int
  {
    seq(|bytes|, i requires 0 <= i < |bytes| => bytes[i] as char)
  }

  datatype ZipError =
    | NoEndRecord
    | BadDirectoryOffset
    | BadEntry
    | BadEntryName
    | NoSuchEntry
    | Compressed
    | BadLocalHeader
    | PastEnd

  datatype Result<+T> = Success(value: T) | Failure(error: ZipError)

  function ReadU16(data: Data, offset: nat): (v: nat)
    requires offset + 2 <= |data|
    ensures v < 0x1_0000
  {
    data[offset] as nat + data[offset + 1] as nat * 0x100
  }

  function ReadU32(data: Data, offset: nat): (v: nat)
    requires offset + 4 <= |data|
    ensures v < 0x1_0000_0000
  {
    data[offset] as nat + data[offset + 1] as nat * 0x100 + data[offset + 2] as nat * 0x1_0000
    + data[offset + 3] as nat * 0x100_0000
  }

  predicate SignatureAt(data: Data, offset: nat, expected: nat) {
    offset + 4 <= |data| && ReadU32(data, offset) == expected
  }

  /** The offsets at which an end record, with a comment of any length, can start. */
  predicate InWindow(data: Data, offset: nat) {
    offset + END_SIZE <= |data| && |data| <= offset + END_SIZE + MAX_COMMENT
  }

  /** The last signature in the window, by scanning backwards. */
  method FindEndOfCentralDirectory(data: Data) returns (r: Option<nat>)
    ensures r.Some? ==> InWindow(data, r.value) && SignatureAt(data, r.value, END_SIGNATURE)
    ensures forall k: nat :: InWindow(data, k) && SignatureAt(data, k, END_SIGNATURE) ==> r.Some? && k <= r.value
  {
    if |data| < END_SIZE {
      return None;
    }
    var window := if |data| < END_SIZE + MAX_COMMENT then |data| else END_SIZE + MAX_COMMENT;
    var earliest, latest := |data| - window, |data| - END_SIZE;
    var offset := latest + 1;
    while offset > earliest
      invariant earliest <= offset <= latest + 1
      invariant forall k: nat :: offset <= k <= latest ==> !SignatureAt(data, k, END_SIGNATURE)
    {
      if SignatureAt(data, offset - 1, END_SIGNATURE) {
        return Some(offset - 1);
      }
      offset := offset - 1;
    }
    r := None;
  }

  /** The directory entry at the cursor and the cursor of the next one. */
  function EntryAt(data: Data, cursor: nat): Result<(Entry, nat)> {
    if !SignatureAt(data, cursor, CENTRAL_SIGNATURE) || cursor + CENTRAL_SIZE > |data| then Failure(BadEntry)
    else
      var nameLength, start := ReadU16(data, cursor + 28), cursor + CENTRAL_SIZE;
      if start + nameLength > |data| then Failure(BadEntryName)
      else
        Success((Entry(Text(data[start..start + nameLength]), ReadU16(data, cursor + 10), ReadU32(data, cursor + 20),
                       ReadU32(data, cursor + 24), ReadU32(data, cursor + 42)),
                 start + nameLength + ReadU16(data, cursor + 30) + ReadU16(data, cursor + 32)))
  }

  /** The first n directory entries and the cursor behind them. */
  ghost function Directory(data: Data, start: nat, n: nat): Result<(seq<Entry>, nat)> {
    if n == 0 then Success(([], start))
    else
      match Directory(data, start, n - 1)
      case Failure(e) => Failure(e)
      case Success((entries, cursor)) =>
        match EntryAt(data, cursor)
        case Failure(e) => Failure(e)
        case Success((entry, next)) => Success((entries + [entry], next))
  }

  lemma {:induction false} DirectoryFails(data: Data, start: nat, n: nat, m: nat)
    requires n <= m && Directory(data, start, n).Failure?
    ensures Directory(data, start, m) == Directory(data, start, n)
    decreases m
  {
    if n < m { DirectoryFails(data, start, n, m - 1); }
  }

  /** The entries of an archive whose end record starts at end. */
  ghost function EntriesOf(data: Data, end: nat): Result<seq<Entry>>
    requires end + END_SIZE <= |data|
  {
    var start := ReadU32(data, end + 16);
    if start >= |data| then Failure(BadDirectoryOffset)
    else
      match Directory(data, start, ReadU16(data, end + 10))
      case Failure(e) => Failure(e)
      case Success((entries, _)) => Success(entries)
  }

  /** The end record that counts: the last one in the window. */
  ghost predicate IsEnd(data: Data, end: nat) {
    && InWindow(data, end) && SignatureAt(data, end, END_SIGNATURE)
    && forall k: nat :: InWindow(data, k) && SignatureAt(data, k, END_SIGNATURE) ==> k <= end
  }

  /** r is what opening the archive must give. */
  ghost predicate IsOpened(data: Data, r: Result<seq<Entry>>) {
    if r == Failure(NoEndRecord) then forall k: nat :: InWindow(data, k) ==> !SignatureAt(data, k, END_SIGNATURE)
    else exists end: nat :: IsEnd(data, end) && r == EntriesOf(data, end)
  }

  /** Reads the central directory that the last end record names. Every access is within the data. */
  method Open(data: Data) returns (r: Result<seq<Entry>>)
    ensures IsOpened(data, r)
  {
    var found := FindEndOfCentralDirectory(data);
    if found.None? {
      return Failure(NoEndRecord);
    }
    var end := found.value;
    assert IsEnd(data, end);
    var total, start := ReadU16(data, end + 10), ReadU32(data, end + 16);
    if start >= |data| {
      return Failure(BadDirectoryOffset);
    }
    r := ReadDirectory(data, start, total);
    NoEndRecordInDirectory(data, start, total);
  }

  method ReadDirectory(data: Data, start: nat, total: nat) returns (r: Result<seq<Entry>>)
    ensures match Directory(data, start, total)
            case Failure(e) => r == Failure(e)
            case Success((entries, _)) => r == Success(entries)
  {
    hide EntryAt;
    var entries: seq<Entry>, cursor := [], start;
    for i := 0 to total
      invariant Directory(data, start, i) == Success((entries, cursor))
    {
      var entry := ReadEntry(data, cursor);
      if entry.Failure? {
        DirectoryFails(data, start, i + 1, total);
        return Failure(entry.error);
      }
      entries := entries + [entry.value.0];
      cursor := entry.value.1;
    }
    r := Success(entries);
  }

  method ReadEntry(data: Data, cursor: nat) returns (r: Result<(Entry, nat)>)
    ensures r == EntryAt(data, cursor)
  {
    if !SignatureAt(data, cursor, CENTRAL_SIGNATURE) || cursor + CENTRAL_SIZE > |data| {
      return Failure(BadEntry);
    }
    var compression := ReadU16(data, cursor + 10);
    var compressedSize, uncompressedSize := ReadU32(data, cursor + 20), ReadU32(data, cursor + 24);
    var nameLength, extraLength := ReadU16(data, cursor + 28), ReadU16(data, cursor + 30);
    var commentLength := ReadU16(data, cursor + 32);
    var localHeader := ReadU32(data, cursor + 42);
    var nameStart := cursor + CENTRAL_SIZE;
    if nameStart + nameLength > |data| {
      return Failure(BadEntryName);
    }
    var name := Text(data[nameStart..nameStart + nameLength]);
    r := Success((Entry(name, compression, compressedSize, uncompressedSize, localHeader),
                  nameStart + nameLength + extraLength + commentLength));
  }

  lemma {:induction false} NoEndRecordInDirectory(data: Data, start: nat, n: nat)
    ensures Directory(data, start, n) != Failure(NoEndRecord)
  {
    if n > 0 { NoEndRecordInDirectory(data, start, n - 1); }
  }

  /** The first entry with the name. */
  function Find(entries: seq<Entry>, name: string): (r: Option<Entry>)
    ensures r.Some? <==> exists i :: 0 <= i < |entries| && entries[i].name == name
    ensures r.Some? ==> r.value in entries && r.value.name == name
  {
    if entries == [] then None
    else if entries[0].name == name then Some(entries[0])
    else
      assert forall i :: 0 < i < |entries| ==> entries[1..][i - 1] == entries[i];
      Find(entries[1..], name)
  }

  lemma {:induction false} FindFirst(entries: seq<Entry>, i: nat)
    requires i < |entries| && forall j :: 0 <= j < i ==> entries[j].name != entries[i].name
    ensures Find(entries, entries[i].name) == Some(entries[i])
  {
    if i > 0 {
      assert entries[1..][i - 1] == entries[i];
      assert forall j :: 0 <= j < i - 1 ==> entries[1..][j] == entries[j + 1];
      FindFirst(entries[1..], i - 1);
    }
  }

  /** The content of an entry. The file is read a second time for it; it may have changed since. */
  function ReadStored(entry: Entry, data: Data): Result<Data> {
    if entry.compression != 0 then Failure(Compressed)
    else if !SignatureAt(data, entry.localHeader, LOCAL_SIGNATURE) || entry.localHeader + LOCAL_SIZE > |data| then
      Failure(BadLocalHeader)
    else
      var start := entry.localHeader + LOCAL_SIZE + ReadU16(data, entry.localHeader + 26)
                   + ReadU16(data, entry.localHeader + 28);
      if start + entry.compressedSize > |data| then Failure(PastEnd)
      else Success(data[start..start + entry.compressedSize])
  }

  function ReadBytes(entries: seq<Entry>, name: string, data: Data): Result<Data> {
    match Find(entries, name)
    case None => Failure(NoSuchEntry)
    case Some(entry) => ReadStored(entry, data)
  }
}
