/**
 * Typed views of one counter: the indicator reads its 64-bit position, the
 * reporter writes it. Both fix the counter's byte offset when they are built.
 */
module Positions {
  import opened Wrappers
  import opened Bytes
  import opened Counters

  /** The counter's 8 value bytes lie inside the values region. */
  predicate InValues(length: nat, counterId: int)
  {
    0 <= counterId && CounterOffset(counterId) + SIZE_OF_LONG <= length
  }

  class BufferPositionIndicator {
    const buffer: array<byte>
    const counterId: int
    /** The manager that owns the counter, or null for a read-only view. */
    const countersManager: CountersManager?
    /** Fixed when the indicator is built. */
    const offset: int

    /** A read-only view: no manager, so it cannot be closed. */
    constructor (buffer: array<byte>, counterId: int)
      ensures this.buffer == buffer && this.counterId == counterId
      ensures countersManager == null
      ensures offset == CounterOffset(counterId)
    {
      this.buffer := buffer;
      this.counterId := counterId;
      this.countersManager := null;
      this.offset := CounterOffset(counterId);
    }

    constructor WithManager(buffer: array<byte>, counterId: int, countersManager: CountersManager?)
      ensures this.buffer == buffer && this.counterId == counterId
      ensures this.countersManager == countersManager
      ensures offset == CounterOffset(counterId)
    {
      this.buffer := buffer;
      this.counterId := counterId;
      this.countersManager := countersManager;
      this.offset := CounterOffset(counterId);
    }

    ghost predicate Valid()
    {
      offset == CounterOffset(counterId)
    }

    /** The current value of the bound counter; nothing changes. */
    method Position() returns (value: int64)
      requires Valid() && InValues(buffer.Length, counterId)
      ensures value == CounterValue(buffer[..], counterId)
    {
      value := GetLong(buffer[..], offset);
    }

    /** Deregisters exactly the bound counter through the owning manager. */
    method Close() returns (r: Result<(), CountersError>)
      requires countersManager != null && countersManager.Valid()
      modifies countersManager, countersManager.labels
      ensures countersManager.Valid()
      ensures r.Ok? <==> old(countersManager.IsLive(counterId))
      ensures r.Ok? ==> (countersManager.labels[..] == old(countersManager.labels[..])[counterId := None]
                         && countersManager.freeList == old(countersManager.freeList) + [counterId])
      ensures r.Err? ==> (countersManager.labels[..] == old(countersManager.labels[..])
                          && countersManager.freeList == old(countersManager.freeList))
      ensures countersManager.idHighWaterMark == old(countersManager.idHighWaterMark)
    {
      r := countersManager.DeregisterCounter(counterId);
    }
  }

  class BufferPositionReporter {
    const buffer: array<byte>
    const counterId: int
    /** Fixed when the reporter is built. */
    const offset: int

    constructor (buffer: array<byte>, counterId: int)
      ensures this.buffer == buffer && this.counterId == counterId
      ensures offset == CounterOffset(counterId)
    {
      this.buffer := buffer;
      this.counterId := counterId;
      this.offset := CounterOffset(counterId);
    }

    ghost predicate Valid()
    {
      offset == CounterOffset(counterId)
    }

    /** Stores value as the bound counter's position; every other counter keeps its value. */
    method SetPosition(value: int64)
      requires Valid() && InValues(buffer.Length, counterId)
      modifies buffer
      ensures buffer[..] == PutLong(old(buffer[..]), CounterOffset(counterId), value)
      ensures CounterValue(buffer[..], counterId) == value
      ensures forall id :: InValues(buffer.Length, id) && id != counterId ==>
                CounterValue(buffer[..], id) == old(CounterValue(buffer[..], id))
    {
      ghost var before := buffer[..];
      var bytes := EncodeLong(value);
      forall i | offset <= i < offset + SIZE_OF_LONG {
        buffer[i] := bytes[i - offset];
      }
      ghost var expected := PutLong(before, offset, value);
      assert forall i :: 0 <= i < buffer.Length ==> buffer[..][i] == expected[i] by {
        forall i | 0 <= i < buffer.Length ensures buffer[..][i] == expected[i] {
          if offset <= i < offset + SIZE_OF_LONG {
            assert expected[i] == expected[offset..offset + SIZE_OF_LONG][i - offset];
          }
        }
      }
      assert buffer[..] == expected;
      CounterValueRoundTrip(before, counterId, value);
      forall id | InValues(buffer.Length, id) && id != counterId
        ensures CounterValue(buffer[..], id) == CounterValue(before, id)
      {
        CounterValueIsolation(before, counterId, id, value);
      }
    }
  }
}
