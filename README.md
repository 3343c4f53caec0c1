# Counters registry and recording log

A Dafny model of two small stateful parts of the Aeron messaging transport, with proofs.

- **Counters registry** (`counters.dfy`, `positions.dfy`). A labels region and a counter values region are shared by any number of `CountersManager` instances. `RegisterCounter` writes a label into a free slot and returns the slot index as the counter id. `DeregisterCounter` clears the slot and queues the id for reuse. `ForEachLabel` scans the shared labels region and reports the live `(id, label)` pairs in ascending id order. When every slot is live, a registration fails with `CapacityExhausted`; this is the source's `IllegalArgumentException`. A `BufferPositionIndicator` fixes `offset = CounterOffset(counterId)` at construction, reads the 64-bit value stored there, and on `Close` deregisters its id through its manager. A `BufferPositionReporter` writes that value.
- **Recording log** (`recording_log.dfy`). A list of `Entry(recordingId, logPosition, leadershipTermId, timestamp, entryType)` in append order. It is backed by an index file of fixed-width records. `Open` creates an empty index file when there is none and otherwise reloads the file. `AppendSnapshot` appends a SNAPSHOT entry to the list and to the file. `GetLatestSnapshot` searches backwards for the last SNAPSHOT entry.
- **Shared codec** (`bytes.dfy`). Little-endian `int32`/`int64` over byte sequences. Both the counter values region and the index file use it.
- **Scenarios** (`counters_manager_tests.dfy`, `recording_log_tests.dfy`). Each JUnit test becomes a method over freshly allocated state. Its postcondition states what the test asserts.

Modelling choices:
- The values region is an `array<byte>`. The 64-bit round trip (a value wider than 32 bits written by a reporter and read by an indicator) is therefore proved through the byte encoding, not assumed.
- The labels region is an `array<Option<string>>` with one entry per `LABEL_SIZE` slot. `None` is a free slot.
- Two managers over the same regions are two objects holding the same two arrays. A label registered through one is seen by the other's `ForEachLabel`.
- `CountersManager.Valid()` is the allocation invariant of the one instance that registers counters. An id is live exactly when its label slot is non-empty. The ids up to the high-water mark are either live or in the free list. The free list has no duplicates.
- The directory is a `Directory` object. Its `indexFile` is `None` when there is no index file, and otherwise the file's bytes.
- `RecordingLog.Valid()` says the index file parses to exactly the in-memory entries.
- The Java constructor throws on an unreadable file. It becomes the static method `Open`, which returns a `Result`.

Sources not modelled:
- The sources of `CountersManager`, `BufferPositionReporter`, `AtomicBuffer` and `RecordingLog` are not part of this model. Their behaviour follows the tests.
- `LABEL_SIZE = 1024` and `COUNTER_SIZE = 64` are not given in CountersManagerTest.java or BufferPositionIndicator.java. The proofs use only that both are positive and that a counter slot holds 8 bytes.
- `counterOffset(id) = id × COUNTER_SIZE` and `labelOffset(id) = id × LABEL_SIZE` are assumed: BufferPositionIndicator.java:41 calls `CountersManager.counterOffset`, whose body is not in this model. Both constructors of the indicator, the reporter and `CounterValuesDisjoint` rest on that formula.
- The index record layout is four little-endian `int64` fields at offsets 0, 8, 16 and 24, then an `int32` entry type at 32. That makes 36 bytes per record. A file that ends inside a record is an error (`TruncatedIndex`), and `Open` returns it. `ENTRY_TYPE_TERM = 0` and `ENTRY_TYPE_SNAPSHOT = 1`.

## Model

| member | source | states |
|---|---|---|
| Bytes.DecodeEncodeLE | aeron-common/src/test/java/uk/co/real_logic/aeron/common/status/CountersManagerTest.java:104-107 | An unsigned value below 256^n decodes back from its n little-endian bytes |
| Bytes.DecodeEncodeLong | aeron-common/src/test/java/uk/co/real_logic/aeron/common/status/CountersManagerTest.java:104-107 | Every 64-bit value round-trips through its 8 bytes, negative values and values wider than 32 bits included |
| Bytes.DecodeEncodeInt | aeron-cluster/src/test/java/io/aeron/cluster/service/RecordingLogTest.java:51-59 | Every 32-bit value (the entry type tag) round-trips through its 4 bytes |
| Bytes.PutLong | aeron-common/src/test/java/uk/co/real_logic/aeron/common/status/CountersManagerTest.java:105-106 | A store writes the value's 8-byte encoding at the offset, keeps the buffer length and leaves every other byte alone |
| Bytes.GetPutLong | aeron-common/src/test/java/uk/co/real_logic/aeron/common/status/CountersManagerTest.java:104-107 | A value stored at an offset is read back unchanged from that offset |
| Bytes.GetPutLongElsewhere | aeron-common/src/test/java/uk/co/real_logic/aeron/common/status/CountersManagerTest.java:101-107 | A store at one offset leaves the value at any non-overlapping offset unchanged |
| Counters.CounterOffset | aeron-common/src/main/java/uk/co/real_logic/aeron/common/status/BufferPositionIndicator.java:41 | A non-negative id's value offset is the start of slot id of the values region: a non-negative multiple of COUNTER_SIZE whose slot index is the id |
| Counters.LabelOffset | aeron-common/src/test/java/uk/co/real_logic/aeron/common/status/CountersManagerTest.java:37 | A non-negative id's label offset is the start of slot id of the labels region: a non-negative multiple of LABEL_SIZE whose slot index is the id |
| Counters.SlotFitsIffBelowCapacity | aeron-common/src/test/java/uk/co/real_logic/aeron/common/status/CountersManagerTest.java:35-38 | An id's label and value fit inside regions of N × LABEL_SIZE and N × COUNTER_SIZE bytes exactly when the id is below the capacity, min of the two slot counts |
| Counters.CounterValuesDisjoint | aeron-common/src/main/java/uk/co/real_logic/aeron/common/status/BufferPositionIndicator.java:41 | The 8 value bytes at counterOffset of two different ids never overlap |
| Counters.CounterValueRoundTrip | aeron-common/src/test/java/uk/co/real_logic/aeron/common/status/CountersManagerTest.java:104-107 | A value stored for counter X is read back unchanged as counter X's value |
| Counters.CounterValueIsolation | aeron-common/src/test/java/uk/co/real_logic/aeron/common/status/CountersManagerTest.java:101-107 | Storing counter X's value leaves every other counter's value unchanged |
| Counters.LabelPairsMembership | aeron-common/src/test/java/uk/co/real_logic/aeron/common/status/CountersManagerTest.java:42-49 | (id, label) is reported by the label scan if and only if slot id of the shared labels region holds that label |
| Counters.LabelPairsAscending | aeron-common/src/test/java/uk/co/real_logic/aeron/common/status/CountersManagerTest.java:61-65 | The reported ids lie inside the region and strictly ascend, so each live id is visited once, in id order |
| Counters.CountersManager.constructor | aeron-common/src/test/java/uk/co/real_logic/aeron/common/status/CountersManagerTest.java:37-40 | A manager is bound to the two given regions with an empty free list and no ids handed out; over empty regions its allocation invariant holds |
| Counters.CountersManager.Capacity | aeron-common/src/test/java/uk/co/real_logic/aeron/common/status/CountersManagerTest.java:35-38 | The capacity fixed by the region sizes never exceeds the number of label slots, and its value slots fit in the values region |
| Counters.CountersManager.RegisterCounter | aeron-common/src/test/java/uk/co/real_logic/aeron/common/status/CountersManagerTest.java:88-96 | Succeeds exactly when some slot below the capacity is free. On success the id was not live, only its label slot changes (to the label), and it is the oldest freed id, or the next id above the high-water mark when none was freed. On failure the error is CapacityExhausted and nothing changes. The allocation invariant is kept |
| Counters.CountersManager.DeregisterCounter | aeron-common/src/test/java/uk/co/real_logic/aeron/common/status/CountersManagerTest.java:75-85 | Succeeds exactly when the id is live. It then clears only that label slot and appends the id to the free list. A non-live id is rejected with nothing changed. The allocation invariant is kept |
| Counters.CountersManager.ForEachLabel | aeron-common/src/test/java/uk/co/real_logic/aeron/common/status/CountersManagerTest.java:58-65 | Returns the label scan of the shared labels region; the two lemmas above give its meaning, whichever manager wrote the labels |
| Positions.BufferPositionIndicator.constructor | aeron-common/src/main/java/uk/co/real_logic/aeron/common/status/BufferPositionIndicator.java:30-33 | Binds buffer and id with no manager, and fixes offset = counterOffset(counterId) |
| Positions.BufferPositionIndicator.WithManager | aeron-common/src/main/java/uk/co/real_logic/aeron/common/status/BufferPositionIndicator.java:35-42 | Binds buffer, id and manager, and fixes offset = counterOffset(counterId); offset is a constant field and never changes |
| Positions.BufferPositionIndicator.Position | aeron-common/src/main/java/uk/co/real_logic/aeron/common/status/BufferPositionIndicator.java:44-47 | Returns the bound counter's 64-bit value at the fixed offset and changes nothing |
| Positions.BufferPositionIndicator.Close | aeron-common/src/main/java/uk/co/real_logic/aeron/common/status/BufferPositionIndicator.java:49-52 | Requires a manager. Deregisters exactly the bound id through it: same outcome and new manager state as DeregisterCounter(counterId) |
| Positions.BufferPositionReporter.constructor | aeron-common/src/test/java/uk/co/real_logic/aeron/common/status/CountersManagerTest.java:105 | Binds buffer and id and fixes offset = counterOffset(counterId) |
| Positions.BufferPositionReporter.SetPosition | aeron-common/src/test/java/uk/co/real_logic/aeron/common/status/CountersManagerTest.java:106 | Stores the value at the bound counter's offset. Afterwards the counter's value is exactly that value and every other counter's value is unchanged |
| RecordingLogs.DecodeEncodeEntry | aeron-cluster/src/test/java/io/aeron/cluster/service/RecordingLogTest.java:51-59 | Every field of an entry survives its fixed-width record |
| RecordingLogs.DecodeEntriesOkIffWhole | aeron-cluster/src/test/java/io/aeron/cluster/service/RecordingLogTest.java:55-56 | An index file reloads exactly when its length is a whole number of records, and then it yields one entry per record |
| RecordingLogs.DecodeEntriesAppend | aeron-cluster/src/test/java/io/aeron/cluster/service/RecordingLogTest.java:53-56 | Appending one record to a readable file makes the reload yield the old entries followed by exactly the appended entry |
| RecordingLogs.DecodeEncodeEntries | aeron-cluster/src/test/java/io/aeron/cluster/service/RecordingLogTest.java:49-56 | Any sequence of entries written to the file reloads as exactly that sequence, in order and field for field |
| RecordingLogs.ReadEntries | aeron-cluster/src/test/java/io/aeron/cluster/service/RecordingLogTest.java:55 | The record-by-record reload loop computes exactly the file's parse, including the truncated-record error |
| RecordingLogs.Directory.Empty | aeron-cluster/src/test/java/io/aeron/cluster/service/RecordingLogTest.java:30 | A directory starts without an index file |
| RecordingLogs.Directory.DeleteIndexFile | aeron-cluster/src/test/java/io/aeron/cluster/service/RecordingLogTest.java:32-36 | After deletion the directory has no index file |
| RecordingLogs.RecordingLog.Open | aeron-cluster/src/test/java/io/aeron/cluster/service/RecordingLogTest.java:41-43 | With no index file: creates an empty one and yields a log with no entries. Otherwise: leaves the file unchanged and yields a log that holds exactly the file's parse, or the parse error. A yielded log is fresh, bound to the directory and consistent with its file |
| RecordingLogs.RecordingLog.AppendSnapshot | aeron-cluster/src/test/java/io/aeron/cluster/service/RecordingLogTest.java:51-53 | Appends Entry(recordingId, logPosition, leadershipTermId, timestamp, SNAPSHOT), in that argument order, to the list and its record to the file. List and file stay consistent |
| RecordingLogs.RecordingLog.GetLatestSnapshot | aeron-cluster/src/test/java/io/aeron/cluster/service/RecordingLogTest.java:58-59 | Returns None exactly when no entry is a SNAPSHOT. Otherwise returns the SNAPSHOT entry after which no SNAPSHOT follows |
| CountersManagerTests.ManagerShouldStoreLabels | aeron-common/src/test/java/uk/co/real_logic/aeron/common/status/CountersManagerTest.java:42-49 | A label registered through one manager is visited, under the returned id and alone, by another manager over the same regions |
| CountersManagerTests.RegisterThreeLabels | aeron-common/src/test/java/uk/co/real_logic/aeron/common/status/CountersManagerTest.java:54-56 | Three registrations on fresh regions get the distinct ids 0, 1, 2 and fill exactly those label slots |
| CountersManagerTests.ManagerShouldStoreMultipleLabels | aeron-common/src/test/java/uk/co/real_logic/aeron/common/status/CountersManagerTest.java:51-66 | After registering abc, def, ghi the other manager visits exactly those three pairs, in ascending id order |
| CountersManagerTests.ShouldDeregisterAndReuseCounters | aeron-common/src/test/java/uk/co/real_logic/aeron/common/status/CountersManagerTest.java:68-86 | After deregistering def the scan visits abc and ghi only, in order, and the next registration returns def's id |
| CountersManagerTests.ManagerShouldNotOverAllocateCounters | aeron-common/src/test/java/uk/co/real_logic/aeron/common/status/CountersManagerTest.java:88-96 | Four registrations on four slots get ids 0 to 3 and the fifth fails with CapacityExhausted |
| CountersManagerTests.RegisteredCountersCanBeMapped | aeron-common/src/test/java/uk/co/real_logic/aeron/common/status/CountersManagerTest.java:98-108 | An indicator on the second registered counter reads back 0xFFFFFFFFF written by a reporter on it |
| CountersManagerTests.LabelPairsOfFourSlots | aeron-common/src/test/java/uk/co/real_logic/aeron/common/status/CountersManagerTest.java:35 | The label scan of four slots is the concatenation of the four slots' pairs in id order |
| RecordingLogTests.ShouldCreateNewIndex | aeron-cluster/src/test/java/io/aeron/cluster/service/RecordingLogTest.java:38-44 | A log over a directory with no index file has zero entries |
| RecordingLogTests.ShouldAppendAndThenReloadLatestSnapshot | aeron-cluster/src/test/java/io/aeron/cluster/service/RecordingLogTest.java:46-60 | After one AppendSnapshot(1, 2, 3, 4) a second log over the same directory has one entry, and its latest snapshot equals Entry(1, 2, 3, 4, SNAPSHOT) field for field |
| RecordingLogTests.ShouldStartEmptyAfterIndexDeleted | aeron-cluster/src/test/java/io/aeron/cluster/service/RecordingLogTest.java:32-43 | A log reloads one appended entry; once the index file is deleted a new log over the directory has zero entries |

## Left out

- Volatile and ordered memory access (`getLongVolatile`) and visibility across processes. Reads and writes of the values region are plain sequential array accesses, because concurrency is not modelled.
- Two instances allocating over the same regions. Only the allocating instance keeps the allocation invariant; any instance may scan labels. The single-writer discipline is stated, not enforced.
- The byte encoding of labels (UTF-8, length prefix) and the label length limit inside `LABEL_SIZE`. A label is an abstract string held in its slot.
- Counters.CountersManager.RegisterCounter: the choice among several freed ids is FIFO (oldest freed first). The tests only fix that a single freed id is handed out next. Zeroing the value slot on registration is not modelled, because none of CountersManagerTest's tests reads the value of a newly registered or reused counter before writing it.
- Counters.CountersManager.DeregisterCounter: an id that is out of range or already free is rejected with `NotRegistered` and nothing changes. The tests do not cover this case.
- Counters.CountersManager.ForEachLabel: it scans every slot of the labels region. The Mockito visitor is replaced by the returned sequence of visited pairs.
- Positions.BufferPositionIndicator.Position and Positions.BufferPositionReporter.SetPosition require the counter's 8 bytes to lie inside the buffer. The buffer's own bounds-check failure is not modelled.
- Real file I/O for the index: file names, temporary directories, fsync, directory sync and I/O failures on append. The index file is the `indexFile` field of `Directory`.
- `appendTerm` and any check that `leadershipTermId` does not decrease: neither is exercised by RecordingLogTest.java. TERM entries reach the log only through a reloaded file.
- `Entry.toString()`. Entries are compared field by field.
