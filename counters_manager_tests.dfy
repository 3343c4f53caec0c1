/**
 * The counters registry scenarios: each method builds fresh regions of four
 * counters and states, as its postcondition, what the scenario observes.
 */
module CountersManagerTests {
  import opened Wrappers
  import opened Bytes
  import opened Counters
  import opened Positions

  const NUMBER_OF_COUNTERS: nat := 4

  /** Zero-filled regions sized for the given number of counters. */
  method AllocateBuffers(numberOfCounters: nat) returns (labels: array<Option<string>>, counters: array<byte>)
    ensures fresh(labels) && fresh(counters)
    ensures labels.Length == numberOfCounters && counters.Length == numberOfCounters * COUNTER_SIZE
    ensures forall id :: 0 <= id < labels.Length ==> labels[id].None?
    ensures forall i :: 0 <= i < counters.Length ==> counters[i] == 0
  {
    labels := new Option<string>[numberOfCounters](_ => None);
    counters := new byte[numberOfCounters * COUNTER_SIZE](_ => 0);
  }

  function SlotPair(slots: seq<Option<string>>, id: int): (pairs: seq<(int, string)>)
    requires 0 <= id < |slots|
  {
    if slots[id].Some? then [(id, slots[id].value)] else []
  }

  /** The label scan of four slots, slot by slot. */
  lemma LabelPairsOfFourSlots(slots: seq<Option<string>>)
    requires |slots| == 4
    ensures LabelPairs(slots) == SlotPair(slots, 0) + SlotPair(slots, 1) + SlotPair(slots, 2) + SlotPair(slots, 3)
  {
    assert slots[..4] == slots;
    assert LabelPairs(slots[..4]) == LabelPairs(slots[..3]) + SlotPair(slots, 3);
    assert slots[..3][..2] == slots[..2];
    assert LabelPairs(slots[..3]) == LabelPairs(slots[..2]) + SlotPair(slots, 2);
    assert slots[..2][..1] == slots[..1];
    assert LabelPairs(slots[..2]) == LabelPairs(slots[..1]) + SlotPair(slots, 1);
    assert slots[..1][..0] == [];
    assert LabelPairs(slots[..1]) == SlotPair(slots, 0);
  }

  /** A label registered through one manager is seen, under the returned id, by another over the same regions. */
  method ManagerShouldStoreLabels() returns (counterId: int, visited: seq<(int, string)>)
    ensures visited == [(counterId, "abc")]
  {
    var labels, counters := AllocateBuffers(NUMBER_OF_COUNTERS);
    var manager := new CountersManager(labels, counters);
    var otherManager := new CountersManager(labels, counters);
    assert labels[0].None?;
    var r := manager.RegisterCounter("abc");
    counterId := r.value;
    visited := otherManager.ForEachLabel();
    LabelPairsOfFourSlots(labels[..]);
  }

  /** Registers "abc", "def" and "ghi" through a manager over four fresh slots. */
  method RegisterThreeLabels(manager: CountersManager) returns (abc: int, def: int, ghi: int)
    requires manager.Valid() && manager.freeList == [] && manager.idHighWaterMark == -1
    requires manager.labels.Length == NUMBER_OF_COUNTERS
    requires manager.counters.Length == NUMBER_OF_COUNTERS * COUNTER_SIZE
    requires forall id :: 0 <= id < manager.labels.Length ==> manager.labels[id].None?
    modifies manager, manager.labels
    ensures manager.Valid() && manager.freeList == [] && manager.idHighWaterMark == 2
    ensures abc == 0 && def == 1 && ghi == 2
    ensures manager.labels[..] == [Some("abc"), Some("def"), Some("ghi"), None]
  {
    var labels := manager.labels;
    assert labels[0].None?;
    var r := manager.RegisterCounter("abc");
    abc := r.value;
    assert labels[1].None?;
    r := manager.RegisterCounter("def");
    def := r.value;
    assert labels[2].None?;
    r := manager.RegisterCounter("ghi");
    ghi := r.value;
  }

  /** Three labels are visited in registration order, and nothing else is. */
  method ManagerShouldStoreMultipleLabels() returns (abc: int, def: int, ghi: int, visited: seq<(int, string)>)
    ensures abc < def < ghi
    ensures visited == [(abc, "abc"), (def, "def"), (ghi, "ghi")]
  {
    var labels, counters := AllocateBuffers(NUMBER_OF_COUNTERS);
    var manager := new CountersManager(labels, counters);
    var otherManager := new CountersManager(labels, counters);
    abc, def, ghi := RegisterThreeLabels(manager);
    visited := otherManager.ForEachLabel();
    LabelPairsOfFourSlots(labels[..]);
  }

  /** A deregistered id is skipped by the label scan and handed out by the next registration. */
  method ShouldDeregisterAndReuseCounters()
    returns (abc: int, def: int, ghi: int, visited: seq<(int, string)>, next: int)
    ensures visited == [(abc, "abc"), (ghi, "ghi")]
    ensures next == def
  {
    var labels, counters := AllocateBuffers(NUMBER_OF_COUNTERS);
    var manager := new CountersManager(labels, counters);
    var otherManager := new CountersManager(labels, counters);
    abc, def, ghi := RegisterThreeLabels(manager);
    var done := manager.DeregisterCounter(def);
    visited := otherManager.ForEachLabel();
    LabelPairsOfFourSlots(labels[..]);
    var r := manager.RegisterCounter("the next label");
    next := r.value;
  }

  /** Four registrations fill four slots; the fifth fails. */
  method ManagerShouldNotOverAllocateCounters() returns (ids: seq<int>, fifth: Result<int, CountersError>)
    ensures ids == [0, 1, 2, 3]
    ensures fifth == Err(CapacityExhausted)
  {
    var labels, counters := AllocateBuffers(NUMBER_OF_COUNTERS);
    var manager := new CountersManager(labels, counters);
    assert labels[0].None?;
    var r := manager.RegisterCounter("abc");
    ids := [r.value];
    assert labels[1].None?;
    r := manager.RegisterCounter("def");
    ids := ids + [r.value];
    assert labels[2].None?;
    r := manager.RegisterCounter("ghi");
    ids := ids + [r.value];
    assert labels[3].None?;
    r := manager.RegisterCounter("jkl");
    ids := ids + [r.value];
    fifth := manager.RegisterCounter("mno");
  }

  /** A position written for a counter is read back by an indicator on the same counter, all 64 bits of it. */
  method RegisteredCountersCanBeMapped() returns (position: int64)
    ensures position == 0xF_FFFF_FFFF
  {
    var labels, counters := AllocateBuffers(NUMBER_OF_COUNTERS);
    var manager := new CountersManager(labels, counters);
    assert labels[0].None?;
    var r := manager.RegisterCounter("def");
    assert labels[1].None?;
    r := manager.RegisterCounter("abc");
    var id := r.value;
    var reader := new BufferPositionIndicator(counters, id);
    var writer := new BufferPositionReporter(counters, id);
    writer.SetPosition(0xF_FFFF_FFFF);
    position := reader.Position();
  }
}
