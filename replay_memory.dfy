/**
 * The replay memory: a fixed-capacity buffer that appends while it is
 * filling and, once full, overwrites the slot under a cursor, advancing the
 * cursor modulo the capacity after every push.
 *
 * Items are opaque (the type parameter `T`); the ghost field `History` is
 * every item ever pushed, oldest first, and `Valid()` ties the real fields to
 * it through `Ring.Tracks`.
 */
module Replay {
  import opened Ring
  import opened Render

  /** The one failure of the memory: an index at or past the length. */
  datatype Error = OutOfRange(message: string)

  const OutOfRangeMessage: string := "index is out of range"

  datatype Result<T> = Ok(value: T) | Err(error: Error)

  /** A raw random number brought into `[0, bound)`; it stands for a draw from that range. */
  function Below(random: nat, bound: nat): (r: nat)
    requires bound > 0
    ensures r < bound
  {
    random % bound
  }

  /**
   * The state of a partial shuffle of the slot numbers of `data`: `order`
   * holds every slot number exactly once, and `pool` lists the items in that
   * order, so it is a rearrangement of `data`.
   */
  ghost predicate Shuffled<T>(order: seq<nat>, pool: seq<T>, data: seq<T>)
  {
    && |order| == |pool| == |data|
    && (forall k :: 0 <= k < |order| ==> order[k] < |data| && pool[k] == data[order[k]])
    && (forall k, l :: 0 <= k < l < |order| ==> order[k] != order[l])
    && multiset(pool) == multiset(data)
  }

  /** `s` with the elements at positions `i` and `j` exchanged. */
  function Swap<T>(s: seq<T>, i: nat, j: nat): (r: seq<T>)
    requires i < |s| && j < |s|
    ensures |r| == |s| && r[i] == s[j] && r[j] == s[i]
    ensures forall k :: 0 <= k < |s| && k != i && k != j ==> r[k] == s[k]
  {
    s[i := s[j]][j := s[i]]
  }

  /**
   * One step of the shuffle: exchanging position `i` with a later position
   * `j` keeps it a shuffle, and the item now at `i` extends the chosen prefix.
   */
  lemma ShuffleStep<T>(order: seq<nat>, pool: seq<T>, data: seq<T>, chosen: seq<T>, i: nat, j: nat)
    requires Shuffled(order, pool, data)
    requires i <= j < |order| && chosen == pool[..i]
    ensures Shuffled(Swap(order, i, j), Swap(pool, i, j), data)
    ensures Swap(order, i, j)[i] < |data|
    ensures chosen + [data[Swap(order, i, j)[i]]] == Swap(pool, i, j)[..i + 1]
  {
    var pool' := Swap(pool, i, j);
    assert pool' == pool[i := pool[j]][j := pool[i]];
    assert multiset(pool') == multiset(pool);
    assert pool'[..i + 1] == pool[..i] + [pool'[i]];
  }

  /** Before any exchange, slot number `k` sits at position `k`. */
  lemma ShuffledInitially<T>(data: seq<T>)
    ensures Shuffled(seq(|data|, k => k), data, data)
  {
  }

  /**
   * `items` were drawn from `data` without replacement: `slots` names, for
   * each item, a distinct slot of `data` holding it, so the items as a
   * multiset are contained in `data`.
   */
  ghost predicate DrawnWithoutReplacement<T>(items: seq<T>, slots: seq<nat>, data: seq<T>)
  {
    && |slots| == |items|
    && multiset(items) <= multiset(data)
    && (forall k :: 0 <= k < |slots| ==> slots[k] < |data| && items[k] == data[slots[k]])
    && (forall k, l :: 0 <= k < l < |slots| ==> slots[k] != slots[l])
  }

  /** The first `amount` positions of a shuffle are a draw without replacement. */
  lemma ShuffledPrefix<T>(order: seq<nat>, pool: seq<T>, data: seq<T>, amount: nat)
    requires Shuffled(order, pool, data) && amount <= |order|
    ensures |pool[..amount]| == amount
    ensures DrawnWithoutReplacement(pool[..amount], order[..amount], data)
  {
    assert pool == pool[..amount] + pool[amount..];
  }

  class ReplayMemory<T> {
    /** The capacity requested at construction; the buffer never holds more. */
    const capacity: nat
    /** The cursor: the next slot to overwrite once the buffer is full. */
    var index: nat
    /** The slots, in physical order. */
    var data: seq<T>
    /** Every item pushed so far, oldest first. */
    ghost var History: seq<T>

    ghost predicate Valid()
      reads this
    {
      Tracks(capacity, index, data, History)
    }

    constructor (capacity: nat)
      ensures Valid()
      ensures this.capacity == capacity && index == 0 && data == [] && History == []
    {
      this.capacity := capacity;
      index := 0;
      data := [];
      History := [];
      TracksInitially<T>(capacity);
    }

    /** Bounds-checked read of a physical slot. */
    function Get(i: nat): (r: Result<T>)
      reads this
      ensures r.Ok? <==> i < |data|
      ensures r.Ok? ==> r.value == data[i]
      ensures r.Err? ==> r.error == OutOfRange(OutOfRangeMessage)
    {
      if i < |data| then Ok(data[i]) else Err(OutOfRange(OutOfRangeMessage))
    }

    /**
     * Append while filling, overwrite the cursor's slot once full; then
     * advance the cursor modulo the capacity. A zero capacity makes the
     * overwrite index an empty vector and the modulo divide by zero, so it is
     * excluded.
     */
    method Push(item: T)
      requires Valid() && capacity > 0
      modifies this
      ensures Valid()
      ensures History == old(History) + [item]
      ensures old(|data|) < capacity ==> data == old(data) + [item]
      ensures old(|data|) == capacity ==> old(index) < |data| && data == old(data)[old(index) := item]
      ensures index == (old(index) + 1) % capacity
      ensures index == if old(index) + 1 < capacity then old(index) + 1 else 0
    {
      TracksPush(capacity, index, data, History, item);
      if !IsFull() {
        data := data + [item];
      } else {
        data := data[index := item];
      }
      index := index + 1;
      index := index % capacity;
      History := History + [item];
    }

    /** Push each item in order. An empty batch pushes nothing, so it is fine at capacity 0. */
    method PushItems(items: seq<T>)
      requires Valid() && (capacity > 0 || items == [])
      modifies this
      ensures Valid()
      ensures History == old(History) + items
      ensures items == [] ==> index == old(index) && data == old(data)
    {
      for i := 0 to |items|
        invariant Valid()
        invariant History == old(History) + items[..i]
        invariant i == 0 ==> index == old(index) && data == old(data)
      {
        Push(items[i]);
        assert items[..i + 1] == items[..i] + [items[i]];
      }
    }

    /**
     * `min(sampleSize, |data|)` items from distinct slots, chosen by a partial
     * Fisher-Yates shuffle of the slot numbers. `draw(i)` is the random number
     * used at step `i`; it picks one of the slots not yet chosen.
     */
    method Sample(sampleSize: nat, draw: nat -> nat) returns (items: seq<T>, ghost slots: seq<nat>)
      ensures |items| == Min(sampleSize, |data|)
      ensures DrawnWithoutReplacement(items, slots, data)
    {
      var n := |data|;
      var amount := if sampleSize < n then sampleSize else n;
      var order: seq<nat> := seq(n, k => k);
      // The items in the order the slot numbers are shuffled into.
      ghost var pool := data;
      ShuffledInitially(data);
      items := [];
      var i := 0;
      while i < amount
        invariant 0 <= i <= amount
        invariant Shuffled(order, pool, data)
        invariant items == pool[..i]
      {
        var j := i + Below(draw(i), n - i);
        ShuffleStep(order, pool, data, items, i, j);
        order := Swap(order, i, j);
        pool := Swap(pool, i, j);
        items := items + [data[order[i]]];
        i := i + 1;
      }
      ShuffledPrefix(order, pool, data, amount);
      slots := order[..amount];
    }

    function IsFull(): (full: bool)
      reads this
      requires Valid()
      ensures full <==> |data| == capacity
      ensures full <==> |History| >= capacity
    {
      |data| == capacity
    }

    function IsEmpty(): (empty: bool)
      reads this
      requires Valid()
      ensures empty <==> |data| == 0
      ensures empty <==> History == [] || capacity == 0
    {
      |data| == 0
    }

    /** Indexing with `memory[i]`: the same bounds-checked read as `Get`. */
    function GetItem(i: nat): (r: Result<T>)
      reads this
      ensures i < |data| ==> r == Ok(data[i])
      ensures i >= |data| ==> r == Err(OutOfRange(OutOfRangeMessage))
    {
      Get(i)
    }

    /** `len(memory)`: the number of pushes so far, capped at the capacity. */
    function Length(): (n: nat)
      reads this
      requires Valid()
      ensures n == |data| == Min(|History|, capacity)
    {
      |data|
    }

    /**
     * `ReplayMemory([a, b, c])`, built step by step: after each item comes a
     * separator unless the item was the last one. `show` stands for the
     * items' own string conversion.
     */
    method Repr(show: T -> string) returns (s: string)
      ensures s == Rendered(show, data)
    {
      var parts := Shown(show, data);
      s := Opening;
      var i := 0;
      while i < |data|
        invariant 0 <= i <= |data|
        invariant s == Opening + Join(parts[..i]) + (if 0 < i < |data| then Separator else "")
      {
        s := s + show(data[i]);
        assert parts[..i + 1][..i] == parts[..i];
        if i + 1 < |data| {
          s := s + Separator;
        }
        i := i + 1;
      }
      assert parts[..|data|] == parts;
      s := s + Closing;
    }
  }
}
