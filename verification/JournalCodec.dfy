/** The JSON form of a journaled transaction, and its decoder. */
module JournalCodec {
  import opened Options
  import opened JsonValue
  import opened JsonParser
  import opened JsonWriter
  import opened JsonRoundTrip
  import opened ArchiveCodec
  import opened Journal

  const ENTRY_KEYS: seq<string> := ["timestampUtc", "operation", "targetId", "previousState", "newState"]
  const RECORD_KEYS: seq<string> := ["transactionId", "state", "description", "openedUtc", "closedUtc", "entries"]

  function StateName(s: TransactionState): string {
    match s
    case Opened => "Opened"
    case Committed => "Committed"
    case RolledBackState => "RolledBack"
    case Failed => "Failed"
  }

  /** Anything unknown counts as opened. */
  function StateFrom(s: string): TransactionState {
    if s == "Committed" then Committed
    else if s == "RolledBack" then RolledBackState
    else if s == "Failed" then Failed
    else Opened
  }

  function EntryValues(e: JournalEntry): (values: seq<Value>)
    ensures |values| == |ENTRY_KEYS|
  {
    [String(e.timestamp), String(e.operation), String(e.target), String(e.previousState), String(e.newState)]
  }

  function EntryToJson(e: JournalEntry): Value {
    Record(ENTRY_KEYS, EntryValues(e))
  }

  function EntryFromJson(v: Value): JournalEntry {
    JournalEntry(ReadString(v, "timestampUtc"), ReadString(v, "operation"), ReadString(v, "targetId"),
                 ReadString(v, "previousState"), ReadString(v, "newState"))
  }

  function EntriesToJson(entries: seq<JournalEntry>): Value {
    Array(seq(|entries|, i requires 0 <= i < |entries| => EntryToJson(entries[i])))
  }

  /** Elements that are not objects are skipped. */
  function EntriesFrom(elements: seq<Value>): seq<JournalEntry> {
    if elements == [] then []
    else
      var last := elements[|elements| - 1];
      EntriesFrom(elements[..|elements| - 1]) + if last.Object? then [EntryFromJson(last)] else []
  }

  function RecordValues(r: TransactionRecord): (values: seq<Value>)
    ensures |values| == |RECORD_KEYS|
  {
    [String(r.id), String(StateName(r.state)), String(r.description), String(r.openedUtc), String(r.closedUtc),
     EntriesToJson(r.entries)]
  }

  function RecordToJson(r: TransactionRecord): Value {
    Record(RECORD_KEYS, RecordValues(r))
  }

  function RecordFromJson(v: Value): TransactionRecord {
    TransactionRecord(ReadString(v, "transactionId"), StateFrom(ReadString(v, "state")), ReadString(v, "description"),
                      ReadString(v, "openedUtc"), ReadString(v, "closedUtc"),
                      match Find(v, "entries") case Some(Array(elements)) => EntriesFrom(elements) case _ => [])
  }

  lemma EntryBack(e: JournalEntry)
    ensures EntryToJson(e).Object? && EntryFromJson(EntryToJson(e)) == e && NumberFree(EntryToJson(e))
  {
    RecordNumberFree(ENTRY_KEYS, EntryValues(e));
    RecordKeysDistinct();
    assert EntryToJson(e).Object?;
    hide Distinct, Record, ReadString, NumberFree;
    var values := EntryValues(e);
    StringField(ENTRY_KEYS, values, 0, "timestampUtc", e.timestamp);
    StringField(ENTRY_KEYS, values, 1, "operation", e.operation);
    StringField(ENTRY_KEYS, values, 2, "targetId", e.target);
    StringField(ENTRY_KEYS, values, 3, "previousState", e.previousState);
    StringField(ENTRY_KEYS, values, 4, "newState", e.newState);
  }

  lemma {:induction false} EntriesBack(entries: seq<JournalEntry>)
    ensures EntriesFrom(EntriesToJson(entries).elements) == entries
  {
    hide EntryToJson, EntryFromJson;
    if entries != [] {
      var n := |entries| - 1;
      EntriesBack(entries[..n]);
      EntryBack(entries[n]);
      var elements := EntriesToJson(entries).elements;
      assert elements[..n] == EntriesToJson(entries[..n]).elements;
      assert entries == entries[..n] + [entries[n]];
    }
  }

  lemma EntriesNumberFree(entries: seq<JournalEntry>)
    ensures NumberFree(EntriesToJson(entries))
  {
    hide EntryToJson;
    forall i | 0 <= i < |entries| ensures AllNumbers(EntryToJson(entries[i]), _ => false) {
      EntryBack(entries[i]);
    }
  }

  lemma RecordKeysDistinct()
    ensures Distinct(RECORD_KEYS) && Distinct(ENTRY_KEYS)
  {
  }

  lemma RecordFields(r: TransactionRecord)
    ensures var v := RecordToJson(r);
            && ReadString(v, "transactionId") == r.id && ReadString(v, "state") == StateName(r.state)
            && ReadString(v, "description") == r.description
            && ReadString(v, "openedUtc") == r.openedUtc && ReadString(v, "closedUtc") == r.closedUtc
            && Find(v, "entries") == Some(EntriesToJson(r.entries))
  {
    hide Distinct, Record, ReadString, Find, FindMember, EntriesToJson, StateName;
    RecordKeysDistinct();
    var values := RecordValues(r);
    StringField(RECORD_KEYS, values, 0, "transactionId", r.id);
    StringField(RECORD_KEYS, values, 1, "state", StateName(r.state));
    StringField(RECORD_KEYS, values, 2, "description", r.description);
    StringField(RECORD_KEYS, values, 3, "openedUtc", r.openedUtc);
    StringField(RECORD_KEYS, values, 4, "closedUtc", r.closedUtc);
    Field(RECORD_KEYS, values, 5, "entries");
  }

  lemma RecordBack(r: TransactionRecord)
    ensures RecordFromJson(RecordToJson(r)) == r
  {
    hide RecordToJson, ReadString, Find, EntriesToJson, EntriesFrom;
    RecordFields(r);
    EntriesBack(r.entries);
    ArrayOfEntries(r.entries);
  }

  lemma ArrayOfEntries(entries: seq<JournalEntry>)
    ensures EntriesToJson(entries).Array?
  {
  }

  /** A journaled record is read back from its file as it was written. */
  lemma JournalReadsBack(f: NumberFormat, r: TransactionRecord)
    requires Standard(f)
    ensures Parse(f, Serialize(f, RecordToJson(r))) == Success(RecordToJson(r))
    ensures RecordFromJson(RecordToJson(r)) == r
  {
    EntriesNumberFree(r.entries);
    RecordNumberFree(RECORD_KEYS, RecordValues(r));
    hide NumberFree, Parse, Serialize, Standard, RecordFromJson;
    RecordBack(r);
    NumberFreeRoundTrip(f, RecordToJson(r));
  }
}
