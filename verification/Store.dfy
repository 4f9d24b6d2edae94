/** The latest-value store: a fixed array of samples, updated in place. */
module Store {
  import opened Types
  import opened VehicleData
  import opened StoreSpec

  datatype SnapshotResult = Complete | InsufficientCapacity

  class VehicleDataStore {
    const samples: array<Sample>
    var size: nat
    ghost var history: seq<Sample>

    ghost predicate Valid()
      reads this, samples
    {
      size <= samples.Length && Slots() == Stored(samples.Length, history)
    }

    ghost function Slots(): seq<Sample>
      requires size <= samples.Length
      reads this, samples
    {
      samples[..size]
    }

    constructor (capacity: nat)
      requires capacity > 0
      ensures Valid() && history == [] && samples.Length == capacity && fresh(samples)
    {
      var empty := Sample([], [], NoValue, UNKNOWN_SOURCE, INVALID_OR_UNKNOWN, UNKNOWN_AVAILABILITY, 0);
      samples := new Sample[capacity](_ => empty);
      size := 0;
      history := [];
    }

    method Upsert(incoming: Sample) returns (result: UpsertResult)
      requires Valid()
      modifies this, samples
      ensures Valid() && history == old(history) + [incoming]
      ensures (Slots(), result) == StoreSpec.Upsert(samples.Length, old(Slots()), incoming)
    {
      var index := IndexOf(incoming.signalId);
      history := history + [incoming];
      assert history[..|history| - 1] == old(history);
      if index < size {
        if incoming.timestampMs < samples[index].timestampMs {
          return IgnoredOlder;
        }
        samples[index] := incoming;
        return Updated;
      }
      if size == samples.Length {
        return Full;
      }
      samples[size] := incoming;
      size := size + 1;
      assert Slots() == old(Slots()) + [incoming];
      return Inserted;
    }

    /** Finds the signal's current sample, or leaves the caller's sample alone. */
    method Lookup(id: seq<Byte>, previous: Sample) returns (found: bool, result: Sample)
      requires Valid()
      ensures found <==> id in Appearances(history)[..Min(|Appearances(history)|, samples.Length)]
      ensures found ==> result.signalId == id && IsCurrent(history, result)
      ensures !found ==> result == previous
    {
      LookupIsCurrent(samples.Length, history, id);
      var index := IndexOf(id);
      if index < size {
        return true, samples[index];
      }
      return false, previous;
    }

    /** Copies all slots, or nothing when they do not fit. */
    method Snapshot(output: array?<Sample>, capacity: nat) returns (result: SnapshotResult, count: nat)
      requires Valid() && output != samples && (output != null ==> capacity <= output.Length)
      modifies output
      ensures count == |Slots()|
      ensures result == if capacity < count || (count != 0 && output == null) then InsufficientCapacity else Complete
      ensures output != null ==>
        output[..] == if result == Complete then Slots() + old(output[count..]) else old(output[..])
    {
      count := size;
      if capacity < size || (size != 0 && output == null) {
        return InsufficientCapacity, count;
      }
      for index := 0 to size
        invariant forall k :: 0 <= k < index ==> output[k] == samples[k]
        invariant output != null ==> forall k :: index <= k < output.Length ==> output[k] == old(output[k])
      {
        output[index] := samples[index];
      }
      return Complete, count;
    }

    method IndexOf(id: seq<Byte>) returns (index: nat)
      requires Valid()
      ensures index == Find(Slots(), id)
    {
      index := 0;
      while index < size
        invariant index <= size && Find(Slots(), id) >= index
      {
        if samples[index].signalId == id {
          return;
        }
        index := index + 1;
      }
    }
  }
}
