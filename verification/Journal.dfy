/** The permanent journal of transactions. */
module Journal {
  import opened Options
  import opened Listing
  import opened Sequences
  import opened Sorting

  datatype TransactionState = Opened | Committed | RolledBackState | Failed

  datatype JournalEntry = JournalEntry(
    timestamp: string,
    operation: string,
    target: string,
    previousState: string,
    newState: string)

  datatype TransactionRecord = TransactionRecord(
    id: string,
    state: TransactionState,
    description: string,
    openedUtc: string,
    closedUtc: string,
    entries: seq<JournalEntry>)

  function RecordId(r: TransactionRecord): string {
    r.id
  }

  predicate OpenedBefore(a: TransactionRecord, b: TransactionRecord) {
    if a.openedUtc != b.openedUtc then LexLess(a.openedUtc, b.openedUtc) else LexLess(a.id, b.id)
  }

  lemma OpeningOrder()
    ensures StrictWeak(OpenedBefore)
  {
    hide LexLess;
    forall a: TransactionRecord, b: TransactionRecord ensures !(OpenedBefore(a, b) && OpenedBefore(b, a)) {
      LexTotal(a.openedUtc, b.openedUtc);
      LexTotal(a.id, b.id);
    }
    forall a: TransactionRecord, b: TransactionRecord, c: TransactionRecord
      | !OpenedBefore(b, a) && !OpenedBefore(c, b) ensures !OpenedBefore(c, a)
    {
      OpenedNotBefore(a, b, c);
    }
  }

  lemma OpenedNotBefore(a: TransactionRecord, b: TransactionRecord, c: TransactionRecord)
    requires !OpenedBefore(b, a) && !OpenedBefore(c, b)
    ensures !OpenedBefore(c, a)
  {
    hide LexLess;
    LexTotal(a.openedUtc, b.openedUtc);
    LexTotal(b.openedUtc, c.openedUtc);
    LexNotLessTransitive(a.openedUtc, b.openedUtc, c.openedUtc);
    if a.openedUtc == b.openedUtc == c.openedUtc {
      LexNotLessTransitive(a.id, b.id, c.id);
    }
  }

  lemma OpeningAscends(list: seq<TransactionRecord>)
    requires Sorted(list, OpenedBefore)
    ensures forall i, j :: 0 <= i < j < |list| ==>
              && NotAfter(list[i].openedUtc, list[j].openedUtc)
              && (list[i].openedUtc == list[j].openedUtc ==> NotAfter(list[i].id, list[j].id))
  {
    hide LexLess, NotAfter;
    forall a: string, b: string ensures !LexLess(b, a) <==> NotAfter(a, b) {
      NotLess(a, b);
    }
    forall a: string ensures NotAfter(a, a) {
      LexTotal(a, a);
    }
    assert forall i, j :: 0 <= i < j < |list| ==> !OpenedBefore(list[j], list[i]);
  }

  class TransactionJournal {
    var records: map<string, TransactionRecord>

    constructor ()
      ensures records == map[]
    {
      records := map[];
    }

    /** The file system may refuse the write at any time; a record of the same transaction is replaced. */
    method Write(record: TransactionRecord) returns (ok: bool)
      modifies this
      ensures records == if ok then old(records)[record.id := record] else old(records)
      ensures record.id == "" ==> !ok
    {
      if record.id == "" {
        return false;
      }
      ok := *;
      if ok {
        records := records[record.id := record];
      }
    }

    /** Every record once, the earliest transaction first. */
    method List() returns (list: seq<TransactionRecord>)
      requires forall id :: id in records ==> records[id].id == id
      ensures Lists(list, records, RecordId)
      ensures forall i, j :: 0 <= i < j < |list| ==>
                && NotAfter(list[i].openedUtc, list[j].openedUtc)
                && (list[i].openedUtc == list[j].openedUtc ==> NotAfter(list[i].id, list[j].id))
    {
      hide LexLess, StrictWeak;
      OpeningOrder();
      var listed := ListAll(records, RecordId);
      list := Sort(listed, OpenedBefore);
      ListsPermuted(listed, list, records, RecordId);
      OpeningAscends(list);
    }

    function Load(id: string): Option<TransactionRecord>
      reads this
    {
      if id in records then Some(records[id]) else None
    }
  }
}
