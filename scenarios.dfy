/**
 * The repository's own test scenarios, as client methods of the memory:
 * each builds a memory, drives it as the scenario does and promises the
 * outcome the scenario checks.
 */
module Scenarios {
  import opened Ring
  import opened Replay

  /** Capacity 5, pushes 0 to 5: the sixth push overwrites slot 0. */
  method OverwritesOldest() returns (contents: seq<int>)
    ensures contents == [5, 1, 2, 3, 4]
  {
    var memory := new ReplayMemory<int>(5);
    memory.Push(0);
    memory.Push(1);
    memory.Push(2);
    memory.Push(3);
    memory.Push(4);
    memory.Push(5);
    contents := memory.data;
  }

  /** The sequence 0, 1, ..., n - 1. */
  function Upto(n: nat): (r: seq<int>)
    ensures |r| == n && forall k :: 0 <= k < n ==> r[k] == k
  {
    if n == 0 then [] else Upto(n - 1) + [n - 1]
  }

  /** Capacity 5, 500 pushes: the capacity stays 5 and the length stops at 5. */
  method CapacityUnchanged() returns (capacity: nat, length: nat)
    ensures capacity == 5 && length == 5
  {
    var memory := new ReplayMemory<int>(5);
    for i := 0 to 500
      invariant memory.Valid() && memory.capacity == 5 && |memory.History| == i
    {
      memory.Push(i);
    }
    capacity := memory.capacity;
    length := memory.Length();
  }

  /** Capacity 5 filled with 0 to 4: a sample of 3 has 3 items, whatever the random draws. */
  method Samples(draw: nat -> nat) returns (size: nat)
    ensures size == 3
  {
    var memory := new ReplayMemory<int>(5);
    memory.Push(0);
    memory.Push(1);
    memory.Push(2);
    memory.Push(3);
    memory.Push(4);
    var items, slots := memory.Sample(3, draw);
    size := |items|;
  }

  /** Capacity 10, a batch of 0 to 10: the eleventh item lands in slot 0. */
  method BatchOverwrites() returns (first: Result<int>)
    ensures first == Ok(10)
  {
    var memory := new ReplayMemory<int>(10);
    memory.PushItems(Upto(11));
    NewestBeforeCursor(memory.capacity, memory.index, memory.data, memory.History);
    first := memory.GetItem(0);
  }

  /** Capacity 10, a batch of 100 items: the length stops at 10. */
  method BatchCapacityUnchanged() returns (length: nat)
    ensures length == 10
  {
    var memory := new ReplayMemory<int>(10);
    memory.PushItems(Upto(100));
    length := memory.Length();
  }

  /** Capacity 0: the memory reports itself both full and empty. */
  method ZeroCapacity() returns (full: bool, empty: bool)
    ensures full && empty
  {
    var memory := new ReplayMemory<int>(0);
    full := memory.IsFull();
    empty := memory.IsEmpty();
  }
}
