/**
 * The recording log scenarios: each method starts from a directory without an
 * index file and states, as its postcondition, what the scenario observes.
 */
module RecordingLogTests {
  import opened Wrappers
  import opened Bytes
  import opened RecordingLogs

  /** A log over a directory with no index file starts with no entries. */
  method ShouldCreateNewIndex() returns (size: nat)
    ensures size == 0
  {
    var dir := new Directory.Empty();
    var created := RecordingLog.Open(dir);
    size := |created.value.entries|;
  }

  /** A snapshot appended by one log is reloaded, field for field, by a second log over the same directory. */
  method ShouldAppendAndThenReloadLatestSnapshot() returns (size: nat, snapshot: Option<Entry>)
    ensures size == 1
    ensures snapshot == Some(Entry(1, 2, 3, 4, ENTRY_TYPE_SNAPSHOT))
  {
    var dir := new Directory.Empty();
    var created := RecordingLog.Open(dir);
    var recordingLog := created.value;
    var entry := Entry(1, 2, 3, 4, ENTRY_TYPE_SNAPSHOT);
    recordingLog.AppendSnapshot(entry.recordingId, entry.logPosition, entry.leadershipTermId, entry.timestamp);
    var reopened := RecordingLog.Open(dir);
    var recordingLogTwo := reopened.value;
    size := |recordingLogTwo.entries|;
    snapshot := recordingLogTwo.GetLatestSnapshot();
    assert recordingLogTwo.entries == [entry];
    assert IsLatestSnapshot(recordingLogTwo.entries, 0);
  }

  /** Deleting the index file resets what a new log over the directory reloads. */
  method ShouldStartEmptyAfterIndexDeleted() returns (before: nat, after: nat)
    ensures before == 1 && after == 0
  {
    var dir := new Directory.Empty();
    var created := RecordingLog.Open(dir);
    created.value.AppendSnapshot(1, 2, 3, 4);
    var reopened := RecordingLog.Open(dir);
    before := |reopened.value.entries|;
    dir.DeleteIndexFile();
    var afterDelete := RecordingLog.Open(dir);
    after := |afterDelete.value.entries|;
  }
}
