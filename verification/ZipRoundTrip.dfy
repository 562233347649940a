/** Archives of any layout the reader accepts, and reading them back: entries with any compression method, extra
    fields, comments and fields that the reader skips. */
module ZipRoundTrip {
  import opened Options
  import opened Words
  import opened ZipReader

  /** What the reader skips in the headers of an item. */
  datatype Skipped = Skipped(
    local: Data,
    localName: Data,
    localExtra: Data,
    versions: Data,
    stamps: Data,
    attributes: Data,
    centralExtra: Data,
    comment: Data)

  datatype Item = Item(name: Data, content: Data, compression: nat, uncompressedSize: nat, skipped: Skipped)

  /** What the reader skips in the end record: the disk numbers and the count before the one it reads, the size of the
      directory, and the comment of the archive. */
  datatype End = End(disks: Data, size: Data, comment: Data)

  /** Byte k of a little-endian number; higher bytes are dropped. */
  function ByteOf(v: nat, k: nat): byte
    requires k <= 3
  {
    (match k
     case 0 => v % 0x100
     case 1 => v / 0x100 % 0x100
     case 2 => v / 0x1_0000 % 0x100
     case 3 => v / 0x100_0000 % 0x100) as byte
  }

  function Two(v: nat): (h: Data)
    ensures |h| == 2
  {
    [ByteOf(v, 0), ByteOf(v, 1)]
  }

  function Four(v: nat): (h: Data)
    ensures |h| == 4
  {
    [ByteOf(v, 0), ByteOf(v, 1), ByteOf(v, 2), ByteOf(v, 3)]
  }

  function LocalHeader(item: Item): Data {
    [0x50, 0x4b, 0x03, 0x04] + (item.skipped.local + (Two(|item.skipped.localName|) + Two(|item.skipped.localExtra|)))
  }

  function CentralHeader(item: Item, offset: nat): Data {
    var k := item.skipped;
    [0x50, 0x4b, 0x01, 0x02]
    + (k.versions + (Two(item.compression) + (k.stamps + (Four(|item.content|) + (Four(item.uncompressedSize)
    + (Two(|item.name|) + (Two(|k.centralExtra|) + (Two(|k.comment|) + (k.attributes + Four(offset))))))))))
  }

  function EndRecord(end: End, count: nat, start: nat): Data {
    [0x50, 0x4b, 0x05, 0x06] + (end.disks + (Two(count) + (end.size + (Four(start) + (Two(|end.comment|) + end.comment)))))
  }

  function Local(item: Item): Data {
    LocalHeader(item) + (item.skipped.localName + (item.skipped.localExtra + item.content))
  }

  /** The local headers and contents of the first n items. */
  function Locals(items: seq<Item>, n: nat): Data
    requires n <= |items|
  {
    if n == 0 then [] else Locals(items, n - 1) + Local(items[n - 1])
  }

  function Central(items: seq<Item>, i: nat): Data
    requires i < |items|
  {
    CentralHeader(items[i], |Locals(items, i)|)
    + (items[i].name + (items[i].skipped.centralExtra + items[i].skipped.comment))
  }

  function Centrals(items: seq<Item>, n: nat): Data
    requires n <= |items|
  {
    if n == 0 then [] else Centrals(items, n - 1) + Central(items, n - 1)
  }

  function EndOf(items: seq<Item>, end: End): Data {
    EndRecord(end, |items|, |Locals(items, |items|)|)
  }

  function Build(items: seq<Item>, end: End): Data {
    Locals(items, |items|) + Centrals(items, |items|) + EndOf(items, end)
  }

  /** Every number fits its field, and every skipped part of fixed length has its length. */
  ghost predicate ItemFits(item: Item) {
    var k := item.skipped;
    && |item.name| < 0x1_0000 && item.compression < 0x1_0000 && item.uncompressedSize < 0x1_0000_0000
    && |k.localName| < 0x1_0000 && |k.localExtra| < 0x1_0000 && |k.centralExtra| < 0x1_0000 && |k.comment| < 0x1_0000
    && |k.local| == 22 && |k.versions| == 6 && |k.stamps| == 8 && |k.attributes| == 8
  }

  /** No later end record hides in the end record and the comment of the archive. */
  ghost predicate Quiet(record: Data) {
    forall k :: 0 < k && k + END_SIZE <= |record| ==> !SignatureAt(record, k, END_SIGNATURE)
  }

  ghost predicate Fits(items: seq<Item>, end: End) {
    && |items| < 0x1_0000 && |Build(items, end)| < 0x1_0000_0000
    && (forall i :: 0 <= i < |items| ==> ItemFits(items[i]))
    && |end.disks| == 6 && |end.size| == 4 && |end.comment| < 0x1_0000 && Quiet(EndOf(items, end))
  }

  /** The chunk stands in the data at pos. */
  ghost predicate Has(data: Data, pos: nat, chunk: Data) {
    pos + |chunk| <= |data| && forall k :: 0 <= k < |chunk| ==> data[pos + k] == chunk[k]
  }

  lemma HasParts(data: Data, pos: nat, a: Data, b: Data)
    requires Has(data, pos, a + b)
    ensures Has(data, pos, a) && Has(data, pos + |a|, b)
  {
    forall k | 0 <= k < |a| ensures data[pos + k] == a[k] {
      assert (a + b)[k] == a[k];
    }
    forall k | 0 <= k < |b| ensures data[pos + |a| + k] == b[k] {
      assert (a + b)[|a| + k] == b[k];
      assert data[pos + (|a| + k)] == (a + b)[|a| + k];
    }
  }

  lemma HasSlice(data: Data, pos: nat, chunk: Data)
    requires Has(data, pos, chunk)
    ensures data[pos..pos + |chunk|] == chunk
  {
  }

  lemma {:induction false} LocalsHas(data: Data, items: seq<Item>, n: nat, i: nat)
    requires i < n <= |items| && Has(data, 0, Locals(items, n))
    ensures Has(data, |Locals(items, i)|, Local(items[i]))
  {
    hide Local, Has;
    HasParts(data, 0, Locals(items, n - 1), Local(items[n - 1]));
    if i < n - 1 { LocalsHas(data, items, n - 1, i); }
  }

  lemma {:induction false} CentralsHas(data: Data, start: nat, items: seq<Item>, n: nat, i: nat)
    requires i < n <= |items| && Has(data, start, Centrals(items, n))
    ensures Has(data, start + |Centrals(items, i)|, Central(items, i))
  {
    hide Central, Has;
    HasParts(data, start, Centrals(items, n - 1), Central(items, n - 1));
    if i < n - 1 { CentralsHas(data, start, items, n - 1, i); }
  }

  lemma BytesBack16(v: nat)
    requires v < 0x1_0000
    ensures ByteOf(v, 0) as nat + ByteOf(v, 1) as nat * 0x100 == v
  {
  }

  lemma BytesBack32(v: nat)
    requires v < 0x1_0000_0000
    ensures ByteOf(v, 0) as nat + ByteOf(v, 1) as nat * 0x100 + ByteOf(v, 2) as nat * 0x1_0000
            + ByteOf(v, 3) as nat * 0x100_0000 == v
  {
    var a, b, c := v / 0x100, v / 0x1_0000, v / 0x100_0000;
    assert b == a / 0x100 && c == b / 0x100;
  }

  lemma ReadTwo(data: Data, pos: nat, v: nat)
    requires Has(data, pos, Two(v)) && v < 0x1_0000
    ensures pos + 2 <= |data| && ReadU16(data, pos) == v
  {
    BytesBack16(v);
    hide ByteOf;
    var h := Two(v);
    assert data[pos] == h[0] && data[pos + 1] == h[1];
  }

  lemma ReadFour(data: Data, pos: nat, v: nat)
    requires Has(data, pos, Four(v)) && v < 0x1_0000_0000
    ensures pos + 4 <= |data| && ReadU32(data, pos) == v
  {
    BytesBack32(v);
    hide ByteOf;
    var h := Four(v);
    assert data[pos] == h[0] && data[pos + 1] == h[1] && data[pos + 2] == h[2] && data[pos + 3] == h[3];
  }

  lemma ReadSignature(data: Data, pos: nat, a: byte, b: byte)
    requires Has(data, pos, [0x50, 0x4b, a, b])
    ensures SignatureAt(data, pos, 0x4b50 + a as nat * 0x1_0000 + b as nat * 0x100_0000)
  {
    var h := [0x50, 0x4b, a, b];
    assert data[pos] == h[0] && data[pos + 1] == h[1] && data[pos + 2] == h[2] && data[pos + 3] == h[3];
  }

  /** What the reader makes of item i of the archive. */
  function Expected(items: seq<Item>, i: nat): Entry
    requires i < |items|
  {
    Entry(Text(items[i].name), items[i].compression, |items[i].content|, items[i].uncompressedSize, |Locals(items, i)|)
  }

  lemma CentralFields(data: Data, pos: nat, item: Item, offset: nat)
    requires Has(data, pos, CentralHeader(item, offset)) && ItemFits(item)
    requires |item.content| < 0x1_0000_0000 && offset < 0x1_0000_0000
    ensures pos + CENTRAL_SIZE <= |data| && |CentralHeader(item, offset)| == CENTRAL_SIZE
    ensures SignatureAt(data, pos, CENTRAL_SIGNATURE) && ReadU16(data, pos + 10) == item.compression
    ensures ReadU32(data, pos + 20) == |item.content| && ReadU32(data, pos + 24) == item.uncompressedSize
    ensures ReadU16(data, pos + 28) == |item.name| && ReadU16(data, pos + 30) == |item.skipped.centralExtra|
    ensures ReadU16(data, pos + 32) == |item.skipped.comment| && ReadU32(data, pos + 42) == offset
  {
    hide Has, Two, Four, ReadU16, ReadU32, SignatureAt;
    var k := item.skipped;
    var r := k.attributes + Four(offset);
    HasParts(data, pos, [0x50, 0x4b, 0x01, 0x02],
             k.versions + (Two(item.compression) + (k.stamps + (Four(|item.content|) + (Four(item.uncompressedSize)
             + (Two(|item.name|) + (Two(|k.centralExtra|) + (Two(|k.comment|) + r))))))));
    ReadSignature(data, pos, 0x01, 0x02);
    HasParts(data, pos + 4, k.versions,
             Two(item.compression) + (k.stamps + (Four(|item.content|) + (Four(item.uncompressedSize)
             + (Two(|item.name|) + (Two(|k.centralExtra|) + (Two(|k.comment|) + r)))))));
    HasParts(data, pos + 10, Two(item.compression),
             k.stamps + (Four(|item.content|) + (Four(item.uncompressedSize)
             + (Two(|item.name|) + (Two(|k.centralExtra|) + (Two(|k.comment|) + r))))));
    ReadTwo(data, pos + 10, item.compression);
    HasParts(data, pos + 12, k.stamps,
             Four(|item.content|) + (Four(item.uncompressedSize)
             + (Two(|item.name|) + (Two(|k.centralExtra|) + (Two(|k.comment|) + r)))));
    SizeFields(data, pos + 20, item, offset);
  }

  lemma SizeFields(data: Data, pos: nat, item: Item, offset: nat)
    requires ItemFits(item) && |item.content| < 0x1_0000_0000 && offset < 0x1_0000_0000
    requires var k := item.skipped;
             Has(data, pos, Four(|item.content|) + (Four(item.uncompressedSize) + (Two(|item.name|)
                            + (Two(|k.centralExtra|) + (Two(|k.comment|) + (k.attributes + Four(offset)))))))
    ensures pos + 26 <= |data|
    ensures ReadU32(data, pos) == |item.content| && ReadU32(data, pos + 4) == item.uncompressedSize
    ensures ReadU16(data, pos + 8) == |item.name| && ReadU16(data, pos + 10) == |item.skipped.centralExtra|
    ensures ReadU16(data, pos + 12) == |item.skipped.comment| && ReadU32(data, pos + 22) == offset
  {
    hide Has, Two, Four, ReadU16, ReadU32;
    var k := item.skipped;
    var r := k.attributes + Four(offset);
    HasParts(data, pos, Four(|item.content|),
             Four(item.uncompressedSize) + (Two(|item.name|) + (Two(|k.centralExtra|) + (Two(|k.comment|) + r))));
    ReadFour(data, pos, |item.content|);
    HasParts(data, pos + 4, Four(item.uncompressedSize),
             Two(|item.name|) + (Two(|k.centralExtra|) + (Two(|k.comment|) + r)));
    ReadFour(data, pos + 4, item.uncompressedSize);
    HasParts(data, pos + 8, Two(|item.name|), Two(|k.centralExtra|) + (Two(|k.comment|) + r));
    ReadTwo(data, pos + 8, |item.name|);
    HasParts(data, pos + 10, Two(|k.centralExtra|), Two(|k.comment|) + r);
    ReadTwo(data, pos + 10, |k.centralExtra|);
    HasParts(data, pos + 12, Two(|k.comment|), r);
    ReadTwo(data, pos + 12, |k.comment|);
    HasParts(data, pos + 14, k.attributes, Four(offset));
    ReadFour(data, pos + 22, offset);
  }

  lemma LocalFields(data: Data, pos: nat, item: Item)
    requires Has(data, pos, LocalHeader(item)) && ItemFits(item)
    ensures pos + LOCAL_SIZE <= |data| && |LocalHeader(item)| == LOCAL_SIZE && SignatureAt(data, pos, LOCAL_SIGNATURE)
    ensures ReadU16(data, pos + 26) == |item.skipped.localName| && ReadU16(data, pos + 28) == |item.skipped.localExtra|
  {
    hide Has, Two, ReadU16, ReadU32, SignatureAt;
    var k := item.skipped;
    HasParts(data, pos, [0x50, 0x4b, 0x03, 0x04], k.local + (Two(|k.localName|) + Two(|k.localExtra|)));
    ReadSignature(data, pos, 0x03, 0x04);
    HasParts(data, pos + 4, k.local, Two(|k.localName|) + Two(|k.localExtra|));
    HasParts(data, pos + 26, Two(|k.localName|), Two(|k.localExtra|));
    ReadTwo(data, pos + 26, |k.localName|);
    ReadTwo(data, pos + 28, |k.localExtra|);
  }

  lemma EndFields(data: Data, pos: nat, end: End, count: nat, start: nat)
    requires Has(data, pos, EndRecord(end, count, start)) && count < 0x1_0000 && start < 0x1_0000_0000
    requires |end.disks| == 6 && |end.size| == 4
    ensures |EndRecord(end, count, start)| == END_SIZE + |end.comment| && pos + END_SIZE <= |data|
    ensures SignatureAt(data, pos, END_SIGNATURE)
    ensures ReadU16(data, pos + 10) == count && ReadU32(data, pos + 16) == start
  {
    hide Has, Two, Four, ReadU16, ReadU32, SignatureAt;
    var r := Two(|end.comment|) + end.comment;
    HasParts(data, pos, [0x50, 0x4b, 0x05, 0x06], end.disks + (Two(count) + (end.size + (Four(start) + r))));
    ReadSignature(data, pos, 0x05, 0x06);
    HasParts(data, pos + 4, end.disks, Two(count) + (end.size + (Four(start) + r)));
    HasParts(data, pos + 10, Two(count), end.size + (Four(start) + r));
    ReadTwo(data, pos + 10, count);
    HasParts(data, pos + 12, end.size, Four(start) + r);
    HasParts(data, pos + 16, Four(start), r);
    ReadFour(data, pos + 16, start);
    HasFits(data, pos + 20, r);
  }

  lemma CentralReads(data: Data, cursor: nat, items: seq<Item>, i: nat)
    requires i < |items| && Has(data, cursor, Central(items, i)) && ItemFits(items[i])
    requires |items[i].content| < 0x1_0000_0000 && |Locals(items, i)| < 0x1_0000_0000
    ensures EntryAt(data, cursor) == Success((Expected(items, i), cursor + |Central(items, i)|))
  {
    hide Locals, CentralHeader, Has, ReadU16, ReadU32;
    var item, offset := items[i], |Locals(items, i)|;
    var more := item.skipped.centralExtra + item.skipped.comment;
    HasParts(data, cursor, CentralHeader(item, offset), item.name + more);
    CentralFields(data, cursor, item, offset);
    HasParts(data, cursor + CENTRAL_SIZE, item.name, more);
    HasSlice(data, cursor + CENTRAL_SIZE, item.name);
    HasFits(data, cursor + CENTRAL_SIZE, item.name);
  }

  lemma HasFits(data: Data, pos: nat, chunk: Data)
    requires Has(data, pos, chunk)
    ensures pos + |chunk| <= |data|
  {
  }

  /** Where the pieces of an archive stand. */
  lemma Layout(items: seq<Item>, end: End)
    ensures var data, start := Build(items, end), |Locals(items, |items|)|;
            && Has(data, 0, Locals(items, |items|)) && Has(data, start, Centrals(items, |items|))
            && |data| == start + |Centrals(items, |items|)| + |EndOf(items, end)|
            && Has(data, |data| - |EndOf(items, end)|, EndOf(items, end))
  {
    var locals, centrals := Locals(items, |items|), Centrals(items, |items|);
    hide Locals, Centrals, EndOf, Has;
    HasWhole(Build(items, end));
    HasParts(Build(items, end), 0, locals + centrals, EndOf(items, end));
    HasParts(Build(items, end), 0, locals, centrals);
  }

  lemma HasWhole(data: Data)
    ensures Has(data, 0, data)
  {
  }

  lemma {:induction false} LocalsGrow(items: seq<Item>, i: nat, n: nat)
    requires i <= n <= |items|
    ensures |Locals(items, i)| <= |Locals(items, n)|
    ensures i < n ==> |Locals(items, i)| + |items[i].content| <= |Locals(items, n)|
    decreases n
  {
    hide LocalHeader;
    if i < n { LocalsGrow(items, i, n - 1); }
  }

  lemma {:induction false} DirectoryReads(items: seq<Item>, end: End, n: nat)
    requires Fits(items, end) && n <= |items|
    ensures var start := |Locals(items, |items|)|;
            Directory(Build(items, end), start, n)
            == Success((ExpectedEntries(items, n), start + |Centrals(items, n)|))
  {
    hide Central, Locals, Build, EntryAt, Expected, Has, EndOf, ItemFits, Quiet;
    if n > 0 {
      DirectoryReads(items, end, n - 1);
      var data, start := Build(items, end), |Locals(items, |items|)|;
      Layout(items, end);
      CentralsHas(data, start, items, |items|, n - 1);
      LocalsGrow(items, n - 1, |items|);
      CentralReads(data, start + |Centrals(items, n - 1)|, items, n - 1);
      assert ExpectedEntries(items, n) == ExpectedEntries(items, n - 1) + [Expected(items, n - 1)];
      assert |Centrals(items, n)| == |Centrals(items, n - 1)| + |Central(items, n - 1)|;
    }
  }

  lemma ContentReads(items: seq<Item>, end: End, i: nat)
    requires Fits(items, end) && i < |items|
    ensures ReadStored(Expected(items, i), Build(items, end))
            == if items[i].compression == 0 then Success(items[i].content) else Failure(Compressed)
  {
    hide Locals, Build, Centrals, LocalHeader, Has, EndOf, ReadU16, SignatureAt, Quiet;
    var data, item, pos := Build(items, end), items[i], |Locals(items, i)|;
    var k, body := item.skipped, pos + LOCAL_SIZE;
    Layout(items, end);
    LocalsHas(data, items, |items|, i);
    HasParts(data, pos, LocalHeader(item), k.localName + (k.localExtra + item.content));
    LocalFields(data, pos, item);
    HasParts(data, body, k.localName, k.localExtra + item.content);
    HasParts(data, body + |k.localName|, k.localExtra, item.content);
    HasFits(data, body + |k.localName| + |k.localExtra|, item.content);
    HasSlice(data, body + |k.localName| + |k.localExtra|, item.content);
  }

  ghost predicate DistinctNames(items: seq<Item>) {
    forall i, j :: 0 <= i < j < |items| ==> items[i].name != items[j].name
  }

  ghost function ExpectedEntries(items: seq<Item>, n: nat): (entries: seq<Entry>)
    requires n <= |items|
    ensures |entries| == n
  {
    seq(n, i requires 0 <= i < n => Expected(items, i))
  }

  /** A signature inside the chunk is a signature of the data. */
  lemma SignatureInside(data: Data, pos: nat, chunk: Data, k: nat)
    requires Has(data, pos, chunk) && k + 4 <= |chunk| && SignatureAt(data, pos + k, END_SIGNATURE)
    ensures SignatureAt(chunk, k, END_SIGNATURE)
  {
    assert data[pos + k] == chunk[k] && data[pos + (k + 1)] == chunk[k + 1];
    assert data[pos + (k + 2)] == chunk[k + 2] && data[pos + (k + 3)] == chunk[k + 3];
  }

  function EndAt(items: seq<Item>): nat {
    |Locals(items, |items|)| + |Centrals(items, |items|)|
  }

  lemma EndReads(items: seq<Item>, end: End)
    requires Fits(items, end)
    ensures var data, at := Build(items, end), EndAt(items);
            && Has(data, at, EndOf(items, end)) && |data| == at + |EndOf(items, end)|
            && InWindow(data, at) && SignatureAt(data, at, END_SIGNATURE)
            && ReadU16(data, at + 10) == |items| && ReadU32(data, at + 16) == |Locals(items, |items|)| < |data|
  {
    Layout(items, end);
    hide Build, Locals, Centrals, Has, SignatureAt, ReadU16, ReadU32, EndRecord, ItemFits, Quiet;
    EndFields(Build(items, end), EndAt(items), end, |items|, |Locals(items, |items|)|);
  }

  /** The end record of a built archive is the last one in it, and so the one found. */
  lemma EndFound(items: seq<Item>, end: End, k: nat)
    requires Fits(items, end) && IsEnd(Build(items, end), k)
    ensures k == EndAt(items)
  {
    EndReads(items, end);
    var data, at, record := Build(items, end), EndAt(items), EndOf(items, end);
    assert Quiet(record);
    hide Build, EndAt, EndOf, Has, SignatureAt, ItemFits;
    if k > at {
      SignatureInside(data, at, record, k - at);
    }
  }

  lemma EndThere(items: seq<Item>, end: End, r: Result<seq<Entry>>)
    requires Fits(items, end) && IsOpened(Build(items, end), r)
    ensures r == EntriesOf(Build(items, end), EndAt(items))
  {
    EndReads(items, end);
    hide Build, Locals, Directory, EndAt, EndOf, SignatureAt, ReadU16, ReadU32, Fits, EntriesOf, InWindow;
    var at: nat :| IsEnd(Build(items, end), at) && r == EntriesOf(Build(items, end), at);
    EndFound(items, end, at);
  }

  /** Opening a built archive finds its items in order, with their methods, sizes and offsets. */
  lemma BuiltOpens(items: seq<Item>, end: End, r: Result<seq<Entry>>)
    requires Fits(items, end) && IsOpened(Build(items, end), r)
    ensures r == Success(ExpectedEntries(items, |items|))
  {
    EndReads(items, end);
    EndThere(items, end, r);
    hide Build, Locals, Directory, EndAt, EndOf, SignatureAt, ReadU16, ReadU32, Fits, InWindow, IsOpened, Has,
         ExpectedEntries;
    DirectoryReads(items, end, |items|);
  }

  /** And under each name it gives the content back, exactly if the item is stored. */
  lemma BuiltReadsBack(items: seq<Item>, end: End, i: nat)
    requires Fits(items, end) && DistinctNames(items) && i < |items|
    ensures ReadBytes(ExpectedEntries(items, |items|), Text(items[i].name), Build(items, end))
            == if items[i].compression == 0 then Success(items[i].content) else Failure(Compressed)
  {
    hide Build, Locals, Find, ReadStored, Fits;
    ContentReads(items, end, i);
    var entries := ExpectedEntries(items, |items|);
    assert entries[i] == Expected(items, i);
    forall j | 0 <= j < i ensures entries[j].name != entries[i].name {
      if entries[j].name == entries[i].name {
        TextInjective(items[j].name, items[i].name);
      }
    }
    FindFirst(entries, i);
  }

  lemma TextInjective(a: Data, b: Data)
    requires Text(a) == Text(b)
    ensures a == b
  {
    assert |a| == |b|;
    forall i | 0 <= i < |a| ensures a[i] == b[i] {
      assert Text(a)[i] == Text(b)[i];
    }
  }

  // The stored-only builder of the tests: nothing is compressed, and nothing but the names is skipped.

  function Zeros(n: nat): (h: Data)
    ensures |h| == n
  {
    seq(n, _ => 0)
  }

  function Stored(name: Data, content: Data): Item {
    Item(name, content, 0, |content|,
         Skipped([20, 0] + Zeros(12) + Four(|content|) + Four(|content|), name, [],
                 [20, 0, 20, 0, 0, 0], Zeros(8), Zeros(8), [], []))
  }

  function StoredEnd(count: nat, size: nat): End {
    End(Zeros(4) + Two(count), Four(size), [])
  }

  /** Its archives can be read back as long as their numbers fit. */
  lemma StoredFits(items: seq<Item>)
    requires forall i :: 0 <= i < |items| ==> items[i] == Stored(items[i].name, items[i].content)
    requires var end := StoredEnd(|items|, |Centrals(items, |items|)|);
             |items| < 0x1_0000 && |Build(items, end)| < 0x1_0000_0000
    requires forall i :: 0 <= i < |items| ==> |items[i].name| < 0x1_0000
    ensures Fits(items, StoredEnd(|items|, |Centrals(items, |items|)|))
  {
    hide Build, Centrals, Locals, Two, Four;
    var end := StoredEnd(|items|, |Centrals(items, |items|)|);
    BuildLength(items, end);
    forall i | 0 <= i < |items| ensures ItemFits(items[i]) {
      LocalsGrow(items, i, |items|);
    }
    assert |EndOf(items, end)| == END_SIZE;
  }

  lemma BuildLength(items: seq<Item>, end: End)
    ensures |Locals(items, |items|)| <= |Build(items, end)|
  {
    hide Locals, Centrals, EndOf;
  }
}
