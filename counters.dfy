/**
 * The counters registry: a labels region and a counter values region, shared
 * by any number of CountersManager instances, and the allocation of counter
 * ids (slot indices) inside them.
 */
module Counters {
  import opened Wrappers
  import opened Bytes

  /** Bytes reserved for one label in the labels region. */
  const LABEL_SIZE: nat := 1024
  /** Bytes reserved for one counter in the values region (its value is the first 8). */
  const COUNTER_SIZE: nat := 64

  datatype CountersError =
    | CapacityExhausted   // the IllegalArgumentException of registerCounter
    | NotRegistered       // the id is outside the regions or its slot is already free

  /** The byte offset of a counter's label slot: the start of slot counterId of the labels region. */
  function LabelOffset(counterId: int): (offset: int)
    ensures 0 <= counterId ==> 0 <= offset && offset % LABEL_SIZE == 0 && offset / LABEL_SIZE == counterId
  {
    counterId * LABEL_SIZE
  }

  /** The byte offset of a counter's value: the start of slot counterId of the values region. */
  function CounterOffset(counterId: int): (offset: int)
    ensures 0 <= counterId ==> 0 <= offset && offset % COUNTER_SIZE == 0 && offset / COUNTER_SIZE == counterId
  {
    counterId * COUNTER_SIZE
  }

  function Min(a: int, b: int): (m: int)
  {
    if a <= b then a else b
  }

  /** The number of counters two regions of the given byte sizes hold. */
  function SlotCapacity(labelsCapacity: nat, countersCapacity: nat): (n: nat)
  {
    Min(labelsCapacity / LABEL_SIZE, countersCapacity / COUNTER_SIZE)
  }

  /** An id's label and value both fit inside the regions exactly when the id is below the capacity. */
  lemma SlotFitsIffBelowCapacity(counterId: int, labelsCapacity: nat, countersCapacity: nat)
    requires 0 <= counterId
    ensures (LabelOffset(counterId) + LABEL_SIZE <= labelsCapacity
             && CounterOffset(counterId) + COUNTER_SIZE <= countersCapacity)
            <==> counterId < SlotCapacity(labelsCapacity, countersCapacity)
  {
  }

  /** The 64-bit values of two different counters occupy disjoint bytes. */
  lemma CounterValuesDisjoint(counterId: int, otherId: int)
    requires 0 <= counterId && 0 <= otherId && counterId != otherId
    ensures CounterOffset(counterId) + SIZE_OF_LONG <= CounterOffset(otherId)
            || CounterOffset(otherId) + SIZE_OF_LONG <= CounterOffset(counterId)
  {
  }

  /** The value of a counter, read from the values region. */
  function CounterValue(values: seq<byte>, counterId: int): (v: int64)
    requires 0 <= counterId && CounterOffset(counterId) + SIZE_OF_LONG <= |values|
  {
    GetLong(values, CounterOffset(counterId))
  }

  /** A value stored for a counter is read back unchanged for that counter. */
  lemma CounterValueRoundTrip(values: seq<byte>, counterId: int, value: int64)
    requires 0 <= counterId && CounterOffset(counterId) + SIZE_OF_LONG <= |values|
    ensures CounterValue(PutLong(values, CounterOffset(counterId), value), counterId) == value
  {
    GetPutLong(values, CounterOffset(counterId), value);
  }

  /** Storing a value for one counter leaves every other counter's value unchanged. */
  lemma CounterValueIsolation(values: seq<byte>, counterId: int, otherId: int, value: int64)
    requires 0 <= counterId && CounterOffset(counterId) + SIZE_OF_LONG <= |values|
    requires 0 <= otherId && CounterOffset(otherId) + SIZE_OF_LONG <= |values|
    requires counterId != otherId
    ensures CounterValue(PutLong(values, CounterOffset(counterId), value), otherId) == CounterValue(values, otherId)
  {
    CounterValuesDisjoint(counterId, otherId);
    GetPutLongElsewhere(values, CounterOffset(counterId), CounterOffset(otherId), value);
  }

  /** The (id, label) pairs of the live slots, in ascending id order. */
  function LabelPairs(slots: seq<Option<string>>): (pairs: seq<(int, string)>)
  {
    if slots == [] then []
    else
      var last := |slots| - 1;
      LabelPairs(slots[..last]) + (if slots[last].Some? then [(last, slots[last].value)] else [])
  }

  /** A pair is reported exactly when its slot holds that label. */
  lemma {:induction false} LabelPairsMembership(slots: seq<Option<string>>, counterId: int, text: string)
    ensures (counterId, text) in LabelPairs(slots) <==> 0 <= counterId < |slots| && slots[counterId] == Some(text)
  {
    if slots != [] {
      var last := |slots| - 1;
      LabelPairsMembership(slots[..last], counterId, text);
      if 0 <= counterId < last {
        assert slots[..last][counterId] == slots[counterId];
      }
    }
  }

  /** Reported ids lie inside the region and strictly increase. */
  lemma {:induction false} LabelPairsAscending(slots: seq<Option<string>>)
    ensures forall k :: 0 <= k < |LabelPairs(slots)| ==> 0 <= LabelPairs(slots)[k].0 < |slots|
    ensures forall j, k :: 0 <= j < k < |LabelPairs(slots)| ==> LabelPairs(slots)[j].0 < LabelPairs(slots)[k].0
  {
    if slots != [] {
      var last := |slots| - 1;
      LabelPairsAscending(slots[..last]);
    }
  }

  class CountersManager {
    /** One entry per LABEL_SIZE slot of the shared labels region; None is a free slot. */
    const labels: array<Option<string>>
    /** The shared counter values region. */
    const counters: array<byte>
    /** Deregistered ids waiting for reuse, oldest first; private to the manager, changed only by its methods. */
    var freeList: seq<int>
    /** The highest id ever handed out by this instance, -1 before the first; private, like freeList. */
    var idHighWaterMark: int

    constructor (labelsBuffer: array<Option<string>>, countersBuffer: array<byte>)
      ensures labels == labelsBuffer && counters == countersBuffer
      ensures freeList == [] && idHighWaterMark == -1
      ensures (forall id :: 0 <= id < labelsBuffer.Length ==> labelsBuffer[id].None?) ==> Valid()
    {
      labels := labelsBuffer;
      counters := countersBuffer;
      freeList := [];
      idHighWaterMark := -1;
    }

    function Capacity(): (n: nat)
      ensures n <= labels.Length && CounterOffset(n) <= counters.Length
    {
      SlotCapacity(labels.Length * LABEL_SIZE, counters.Length)
    }

    ghost predicate IsLive(counterId: int)
      reads labels
    {
      0 <= counterId < labels.Length && labels[counterId].Some?
    }

    ghost predicate HasFreeSlot()
      reads labels
    {
      exists id :: 0 <= id < Capacity() && labels[id].None?
    }

    /**
     * The allocation invariant of the instance that registers counters: the
     * ids up to the high-water mark are handed out, and an id's label slot is
     * empty exactly when the id was never handed out or sits in the free list.
     */
    ghost predicate Valid()
      reads this, labels
    {
      && -1 <= idHighWaterMark < Capacity()
      && (forall k :: 0 <= k < |freeList| ==> 0 <= freeList[k] <= idHighWaterMark)
      && (forall j, k :: 0 <= j < k < |freeList| ==> freeList[j] != freeList[k])
      && (forall id :: 0 <= id < labels.Length ==>
            (labels[id].None? <==> (id > idHighWaterMark || id in freeList)))
    }

    method RegisterCounter(text: string) returns (r: Result<int, CountersError>)
      requires Valid()
      modifies this, labels
      ensures Valid()
      ensures r.Ok? <==> old(HasFreeSlot())
      ensures r.Err? ==> r.error == CapacityExhausted
      ensures r.Ok? ==> 0 <= r.value < Capacity() && !old(IsLive(r.value))
      ensures r.Ok? ==> labels[..] == old(labels[..])[r.value := Some(text)]
      ensures r.Ok? && old(freeList) != [] ==>
                r.value == old(freeList[0]) && freeList == old(freeList[1..])
                && idHighWaterMark == old(idHighWaterMark)
      ensures r.Ok? && old(freeList) == [] ==>
                r.value == old(idHighWaterMark) + 1 && freeList == []
                && idHighWaterMark == r.value
      ensures r.Err? ==> (labels[..] == old(labels[..]) && freeList == old(freeList)
                          && idHighWaterMark == old(idHighWaterMark))
    {
      var counterId := if freeList != [] then freeList[0] else idHighWaterMark + 1;
      SlotFitsIffBelowCapacity(counterId, labels.Length * LABEL_SIZE, counters.Length);
      if CounterOffset(counterId) + COUNTER_SIZE > counters.Length
         || LabelOffset(counterId) + LABEL_SIZE > labels.Length * LABEL_SIZE
      {
        assert freeList == [] && idHighWaterMark + 1 == Capacity();
        assert forall id :: 0 <= id < Capacity() ==> labels[id].Some?;
        return Err(CapacityExhausted);
      }
      assert labels[counterId].None?;
      labels[counterId] := Some(text);
      if freeList != [] {
        assert forall id :: id in freeList && id != counterId ==> id in freeList[1..];
        freeList := freeList[1..];
      } else {
        idHighWaterMark := counterId;
      }
      r := Ok(counterId);
    }

    method DeregisterCounter(counterId: int) returns (r: Result<(), CountersError>)
      requires Valid()
      modifies this, labels
      ensures Valid()
      ensures r.Ok? <==> old(IsLive(counterId))
      ensures r.Err? ==> r.error == NotRegistered
      ensures r.Ok? ==> (labels[..] == old(labels[..])[counterId := None]
                         && freeList == old(freeList) + [counterId])
      ensures idHighWaterMark == old(idHighWaterMark)
      ensures r.Err? ==> labels[..] == old(labels[..]) && freeList == old(freeList)
    {
      if !(0 <= counterId < labels.Length && labels[counterId].Some?) {
        return Err(NotRegistered);
      }
      labels[counterId] := None;
      freeList := freeList + [counterId];
      r := Ok(());
    }

    /** The live (id, label) pairs of the shared labels region, whichever instance registered them. */
    method ForEachLabel() returns (visited: seq<(int, string)>)
      ensures visited == LabelPairs(labels[..])
    {
      visited := [];
      var id := 0;
      while id < labels.Length
        invariant 0 <= id <= labels.Length
        invariant visited == LabelPairs(labels[..id])
      {
        assert labels[..id + 1][..id] == labels[..id];
        match labels[id] {
          case Some(text) => visited := visited + [(id, text)];
          case None =>
        }
        id := id + 1;
      }
      assert labels[..labels.Length] == labels[..];
    }
  }
}
