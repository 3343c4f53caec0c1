/**
 * The recording log of a cluster node: an ordered list of entries (term
 * boundaries and snapshots) kept in memory and in an index file of
 * fixed-width records that a new instance reloads.
 */
module RecordingLogs {
  import opened Wrappers
  import opened Bytes

  const ENTRY_TYPE_TERM: int32 := 0
  const ENTRY_TYPE_SNAPSHOT: int32 := 1

  /** Layout of one record of the index file. */
  const RECORDING_ID_OFFSET: nat := 0
  const LOG_POSITION_OFFSET: nat := RECORDING_ID_OFFSET + SIZE_OF_LONG
  const LEADERSHIP_TERM_ID_OFFSET: nat := LOG_POSITION_OFFSET + SIZE_OF_LONG
  const TIMESTAMP_OFFSET: nat := LEADERSHIP_TERM_ID_OFFSET + SIZE_OF_LONG
  const ENTRY_TYPE_OFFSET: nat := TIMESTAMP_OFFSET + SIZE_OF_LONG
  const ENTRY_LENGTH: nat := ENTRY_TYPE_OFFSET + SIZE_OF_INT

  datatype Entry = Entry(
    recordingId: int64,
    logPosition: int64,
    leadershipTermId: int64,
    timestamp: int64,
    entryType: int32)

  datatype LogError = TruncatedIndex   // the index file ends inside a record

  function EncodeEntry(e: Entry): (bs: seq<byte>)
    ensures |bs| == ENTRY_LENGTH
  {
    EncodeLong(e.recordingId) + EncodeLong(e.logPosition) + EncodeLong(e.leadershipTermId)
    + EncodeLong(e.timestamp) + EncodeInt(e.entryType)
  }

  function DecodeEntry(bs: seq<byte>): (e: Entry)
    requires |bs| == ENTRY_LENGTH
  {
    Entry(DecodeLong(bs[RECORDING_ID_OFFSET..LOG_POSITION_OFFSET]),
          DecodeLong(bs[LOG_POSITION_OFFSET..LEADERSHIP_TERM_ID_OFFSET]),
          DecodeLong(bs[LEADERSHIP_TERM_ID_OFFSET..TIMESTAMP_OFFSET]),
          DecodeLong(bs[TIMESTAMP_OFFSET..ENTRY_TYPE_OFFSET]),
          DecodeInt(bs[ENTRY_TYPE_OFFSET..ENTRY_LENGTH]))
  }

  /** Every field of an entry survives its record. */
  lemma DecodeEncodeEntry(e: Entry)
    ensures DecodeEntry(EncodeEntry(e)) == e
  {
    var bs := EncodeEntry(e);
    assert bs[RECORDING_ID_OFFSET..LOG_POSITION_OFFSET] == EncodeLong(e.recordingId);
    assert bs[LOG_POSITION_OFFSET..LEADERSHIP_TERM_ID_OFFSET] == EncodeLong(e.logPosition);
    assert bs[LEADERSHIP_TERM_ID_OFFSET..TIMESTAMP_OFFSET] == EncodeLong(e.leadershipTermId);
    assert bs[TIMESTAMP_OFFSET..ENTRY_TYPE_OFFSET] == EncodeLong(e.timestamp);
    assert bs[ENTRY_TYPE_OFFSET..ENTRY_LENGTH] == EncodeInt(e.entryType);
    DecodeEncodeLong(e.recordingId);
    DecodeEncodeLong(e.logPosition);
    DecodeEncodeLong(e.leadershipTermId);
    DecodeEncodeLong(e.timestamp);
    DecodeEncodeInt(e.entryType);
  }

  /** The index file holding the given entries, in order. */
  function EncodeEntries(entries: seq<Entry>): (bs: seq<byte>)
    ensures |bs| == |entries| * ENTRY_LENGTH
  {
    if entries == [] then []
    else EncodeEntries(entries[..|entries| - 1]) + EncodeEntry(entries[|entries| - 1])
  }

  /** Parses the index file record by record from its start; a partial trailing record is an error. */
  function DecodeEntries(bs: seq<byte>): (r: Result<seq<Entry>, LogError>)
    decreases |bs|
  {
    if |bs| == 0 then Ok([])
    else if |bs| < ENTRY_LENGTH then Err(TruncatedIndex)
    else
      match DecodeEntries(bs[ENTRY_LENGTH..])
      case Ok(rest) => Ok([DecodeEntry(bs[..ENTRY_LENGTH])] + rest)
      case Err(e) => Err(e)
  }

  /** A file parses exactly when its length is a whole number of records. */
  lemma {:induction false} DecodeEntriesOkIffWhole(bs: seq<byte>)
    ensures DecodeEntries(bs).Ok? <==> |bs| % ENTRY_LENGTH == 0
    ensures DecodeEntries(bs).Ok? ==> |DecodeEntries(bs).value| * ENTRY_LENGTH == |bs|
    decreases |bs|
  {
    if |bs| >= ENTRY_LENGTH {
      DecodeEntriesOkIffWhole(bs[ENTRY_LENGTH..]);
    }
  }

  /** Appending one record to a file that parses adds exactly that entry at the end. */
  lemma {:induction false} DecodeEntriesAppend(bs: seq<byte>, entries: seq<Entry>, e: Entry)
    requires DecodeEntries(bs) == Ok(entries)
    ensures DecodeEntries(bs + EncodeEntry(e)) == Ok(entries + [e])
    decreases |bs|
  {
    var record := EncodeEntry(e);
    DecodeEncodeEntry(e);
    if |bs| == 0 {
      assert bs == [];
      assert bs + record == record;
      assert record[ENTRY_LENGTH..] == [];
      assert record[..ENTRY_LENGTH] == record;
      assert DecodeEntries(record[ENTRY_LENGTH..]) == Ok([]);
      assert entries == [];
      assert DecodeEntries(record) == Ok([e] + []);
      assert entries + [e] == [e] + [];
    } else {
      var rest := DecodeEntries(bs[ENTRY_LENGTH..]).value;
      assert entries == [DecodeEntry(bs[..ENTRY_LENGTH])] + rest;
      DecodeEntriesAppend(bs[ENTRY_LENGTH..], rest, e);
      assert (bs + record)[ENTRY_LENGTH..] == bs[ENTRY_LENGTH..] + record;
      assert (bs + record)[..ENTRY_LENGTH] == bs[..ENTRY_LENGTH];
      assert entries + [e] == [DecodeEntry(bs[..ENTRY_LENGTH])] + (rest + [e]);
    }
  }

  /** Any sequence of appended entries is reloaded exactly, in the same order. */
  lemma {:induction false} DecodeEncodeEntries(entries: seq<Entry>)
    ensures DecodeEntries(EncodeEntries(entries)) == Ok(entries)
  {
    if entries != [] {
      var prefix := entries[..|entries| - 1];
      DecodeEncodeEntries(prefix);
      DecodeEntriesAppend(EncodeEntries(prefix), prefix, entries[|entries| - 1]);
      assert prefix + [entries[|entries| - 1]] == entries;
    }
  }

  function Prepend(entries: seq<Entry>, r: Result<seq<Entry>, LogError>): (result: Result<seq<Entry>, LogError>)
  {
    match r
    case Ok(rest) => Ok(entries + rest)
    case Err(e) => Err(e)
  }

  /** Reads the index file into the list of entries, one record per step. */
  method ReadEntries(file: seq<byte>) returns (r: Result<seq<Entry>, LogError>)
    ensures r == DecodeEntries(file)
  {
    var entries: seq<Entry> := [];
    var position := 0;
    assert file[position..] == file;
    assert Prepend(entries, DecodeEntries(file)) == DecodeEntries(file) by {
      if DecodeEntries(file).Ok? {
        assert entries + DecodeEntries(file).value == DecodeEntries(file).value;
      }
    }
    while position < |file|
      invariant 0 <= position <= |file|
      invariant DecodeEntries(file) == Prepend(entries, DecodeEntries(file[position..]))
    {
      if |file| - position < ENTRY_LENGTH {
        return Err(TruncatedIndex);
      }
      var record := file[position..position + ENTRY_LENGTH];
      assert file[position..][..ENTRY_LENGTH] == record;
      assert file[position..][ENTRY_LENGTH..] == file[position + ENTRY_LENGTH..];
      var e := DecodeEntry(record);
      match DecodeEntries(file[position + ENTRY_LENGTH..]) {
        case Ok(rest) => assert entries + ([e] + rest) == (entries + [e]) + rest;
        case Err(_) =>
      }
      entries := entries + [e];
      position := position + ENTRY_LENGTH;
    }
    assert file[position..] == [];
    assert entries + [] == entries;
    r := Ok(entries);
  }

  /** Entry i is a snapshot and no later entry is. */
  ghost predicate IsLatestSnapshot(entries: seq<Entry>, i: int)
  {
    && 0 <= i < |entries|
    && entries[i].entryType == ENTRY_TYPE_SNAPSHOT
    && forall j :: i < j < |entries| ==> entries[j].entryType != ENTRY_TYPE_SNAPSHOT
  }

  /** The directory the log lives in; only its index file is modelled. */
  class Directory {
    /** The index file's bytes, or None when there is no index file. */
    var indexFile: Option<seq<byte>>

    constructor Empty()
      ensures indexFile == None
    {
      indexFile := None;
    }

    method DeleteIndexFile()
      modifies this
      ensures indexFile == None
    {
      indexFile := None;
    }
  }

  class RecordingLog {
    const dir: Directory
    /** The entries in append order: the read-only `entries()` view; only Open and AppendSnapshot set it. */
    var entries: seq<Entry>

    /** The index file exists and parses to exactly the in-memory entries. */
    ghost predicate Valid()
      reads this, dir
    {
      dir.indexFile.Some? && DecodeEntries(dir.indexFile.value) == Ok(entries)
    }

    constructor Loaded(dir: Directory, entries: seq<Entry>)
      ensures this.dir == dir && this.entries == entries
    {
      this.dir := dir;
      this.entries := entries;
    }

    /**
     * A log over dir: with no index file it creates an empty one and starts
     * with no entries, otherwise it reloads the file.
     */
    static method Open(dir: Directory) returns (r: Result<RecordingLog, LogError>)
      modifies dir
      ensures old(dir.indexFile).None? ==> dir.indexFile == Some([]) && r.Ok? && r.value.entries == []
      ensures old(dir.indexFile).Some? ==>
                dir.indexFile == old(dir.indexFile)
                && (r.Ok? <==> DecodeEntries(old(dir.indexFile).value).Ok?)
                && (r.Ok? ==> r.value.entries == DecodeEntries(old(dir.indexFile).value).value)
                && (r.Err? ==> r.error == DecodeEntries(old(dir.indexFile).value).error)
      ensures r.Ok? ==> fresh(r.value) && r.value.dir == dir && r.value.Valid()
    {
      var entries: seq<Entry>;
      match dir.indexFile {
        case None =>
          dir.indexFile := Some([]);
          entries := [];
        case Some(file) =>
          var loaded := ReadEntries(file);
          if loaded.Err? {
            return Err(loaded.error);
          }
          entries := loaded.value;
      }
      var log := new RecordingLog.Loaded(dir, entries);
      r := Ok(log);
    }

    /** Appends a SNAPSHOT entry with the given fields to the list and to the index file. */
    method AppendSnapshot(recordingId: int64, logPosition: int64, leadershipTermId: int64, timestamp: int64)
      requires Valid()
      modifies this, dir
      ensures Valid()
      ensures entries == old(entries) + [Entry(recordingId, logPosition, leadershipTermId, timestamp, ENTRY_TYPE_SNAPSHOT)]
      ensures dir.indexFile == Some(old(dir.indexFile.value)
                                    + EncodeEntry(Entry(recordingId, logPosition, leadershipTermId, timestamp, ENTRY_TYPE_SNAPSHOT)))
    {
      var e := Entry(recordingId, logPosition, leadershipTermId, timestamp, ENTRY_TYPE_SNAPSHOT);
      DecodeEntriesAppend(dir.indexFile.value, entries, e);
      dir.indexFile := Some(dir.indexFile.value + EncodeEntry(e));
      entries := entries + [e];
    }

    /** The last SNAPSHOT entry, searching backwards from the end, or None when there is none. */
    method GetLatestSnapshot() returns (r: Option<Entry>)
      ensures r.None? <==> forall i :: 0 <= i < |entries| ==> entries[i].entryType != ENTRY_TYPE_SNAPSHOT
      ensures r.Some? ==> exists i :: IsLatestSnapshot(entries, i) && entries[i] == r.value
    {
      var i := |entries|;
      while i > 0
        invariant 0 <= i <= |entries|
        invariant forall j :: i <= j < |entries| ==> entries[j].entryType != ENTRY_TYPE_SNAPSHOT
      {
        i := i - 1;
        if entries[i].entryType == ENTRY_TYPE_SNAPSHOT {
          assert IsLatestSnapshot(entries, i);
          return Some(entries[i]);
        }
      }
      r := None;
    }
  }
}
