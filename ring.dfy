/**
 * The ring discipline of the replay memory, stated on plain values.
 *
 * A buffer of capacity `capacity` is described by its cursor and its slots
 * `data`; `history` is every item ever pushed, oldest first. `Tracks` is the
 * relation that every push keeps: the slots hold exactly the most recent
 * `min(|history|, capacity)` items, and reading the slots from the cursor
 * round to just before it gives those items in arrival order, so the cursor
 * sits on the oldest one.
 */
module Ring {

  function Min(a: nat, b: nat): (m: nat)
    ensures m <= a && m <= b && (m == a || m == b)
  {
    if a < b then a else b
  }

  /** The slots read from `cursor` to the end and then from the start up to `cursor`. */
  function Chronological<T>(data: seq<T>, cursor: nat): (r: seq<T>)
    requires cursor <= |data|
    ensures |r| == |data|
  {
    data[cursor..] + data[..cursor]
  }

  /** The most recent `n` items of `history`. */
  function Recent<T>(history: seq<T>, n: nat): (r: seq<T>)
    requires n <= |history|
    ensures |r| == n
  {
    history[|history| - n..]
  }

  /** The cursor after one more push: the next slot, wrapping to 0 past the last one. */
  function Advance(cursor: nat, capacity: nat): nat
  {
    if cursor + 1 >= capacity then 0 else cursor + 1
  }

  /** Where the cursor stands after `pushes` pushes into an empty buffer. */
  function CursorAfter(pushes: nat, capacity: nat): nat
  {
    if pushes == 0 then 0 else Advance(CursorAfter(pushes - 1, capacity), capacity)
  }

  ghost predicate Tracks<T>(capacity: nat, cursor: nat, data: seq<T>, history: seq<T>)
  {
    && |data| == Min(|history|, capacity)
    && cursor == CursorAfter(|history|, capacity)
    && (|data| < capacity ==> cursor == |data|)
    && cursor <= |data|
    && Chronological(data, cursor) == Recent(history, |data|)
  }

  /** A freshly constructed buffer: no pushes, no slots, cursor at 0. */
  lemma TracksInitially<T>(capacity: nat)
    ensures Tracks<T>(capacity, 0, [], [])
  {
  }

  /** Euclidean division is unique: a quotient and an in-range remainder are the ones `/` and `%` give. */
  lemma DivModUnique(n: int, m: int, q: int, r: int)
    requires m > 0 && 0 <= r < m && n == q * m + r
    ensures n / m == q && n % m == r
  {
    var q', r' := n / m, n % m;
    assert n == q' * m + r';
    var d := q - q';
    assert d * m == q * m - q' * m;
    assert d * m == r' - r;
    if d > 0 {
      MulAtLeast(d, m);
    } else if d < 0 {
      MulAtLeast(-d, m);
    }
  }

  lemma MulAtLeast(d: int, m: int)
    requires d >= 1 && m > 0
    ensures d * m >= m
  {
  }

  lemma ModSucc(n: nat, capacity: nat)
    requires capacity > 0
    ensures (n % capacity + 1) % capacity == (n + 1) % capacity
  {
    var q, r := n / capacity, n % capacity;
    if r + 1 < capacity {
      DivModUnique(n + 1, capacity, q, r + 1);
      DivModUnique(r + 1, capacity, 0, r + 1);
    } else {
      DivModUnique(n + 1, capacity, q + 1, 0);
      DivModUnique(r + 1, capacity, 1, 0);
    }
  }

  /** Below the capacity, advancing the cursor is adding one modulo the capacity. */
  lemma AdvanceIsMod(cursor: nat, capacity: nat)
    requires cursor < capacity
    ensures Advance(cursor, capacity) == (cursor + 1) % capacity
  {
    if cursor + 1 < capacity {
      DivModUnique(cursor + 1, capacity, 0, cursor + 1);
    } else {
      DivModUnique(cursor + 1, capacity, 1, 0);
    }
  }

  /** The cursor counts pushes modulo the capacity. */
  lemma {:induction false} CursorAfterIsMod(pushes: nat, capacity: nat)
    requires capacity > 0
    ensures CursorAfter(pushes, capacity) == pushes % capacity < capacity
  {
    if pushes == 0 {
      DivModUnique(0, capacity, 0, 0);
    } else {
      CursorAfterIsMod(pushes - 1, capacity);
      AdvanceIsMod(CursorAfter(pushes - 1, capacity), capacity);
      ModSucc(pushes - 1, capacity);
    }
  }

  /** While filling, appending the item keeps the ring discipline. */
  lemma TracksAppend<T>(capacity: nat, cursor: nat, data: seq<T>, history: seq<T>, item: T)
    requires Tracks(capacity, cursor, data, history)
    requires |data| < capacity
    ensures Tracks(capacity, Advance(cursor, capacity), data + [item], history + [item])
  {
    var data' := data + [item];
    var cursor' := Advance(cursor, capacity);
    assert data == Chronological(data, cursor) == history;
    if cursor' == 0 {
      assert data'[cursor'..] + data'[..cursor'] == data';
    } else {
      assert cursor' == |data'|;
      assert data'[cursor'..] + data'[..cursor'] == data';
    }
    assert Recent(history + [item], |data'|) == history + [item];
  }

  /** Once full, overwriting the slot under the cursor keeps the ring discipline. */
  lemma TracksOverwrite<T>(capacity: nat, cursor: nat, data: seq<T>, history: seq<T>, item: T)
    requires Tracks(capacity, cursor, data, history)
    requires 0 < capacity == |data|
    ensures cursor < |data|
    ensures Tracks(capacity, Advance(cursor, capacity), data[cursor := item], history + [item])
  {
    var cursor' := Advance(cursor, capacity);
    var data' := data[cursor := item];
    var view := Chronological(data, cursor);
    var view' := Chronological(data', cursor');
    if cursor + 1 < capacity {
      assert data'[cursor'..] == data[cursor + 1..];
      assert data'[..cursor'] == data[..cursor] + [item];
    } else {
      assert data' == data[..cursor] + [item];
    }
    assert view' == view[1..] + [item];
    assert Recent(history + [item], |data'|) == Recent(history, |data|)[1..] + [item];
  }

  /**
   * One push keeps the ring discipline: append while filling, overwrite the
   * slot under the cursor once full, then advance the cursor modulo capacity.
   */
  lemma TracksPush<T>(capacity: nat, cursor: nat, data: seq<T>, history: seq<T>, item: T)
    requires Tracks(capacity, cursor, data, history)
    requires capacity > 0
    ensures cursor < capacity
    ensures |data| == capacity ==> cursor < |data|
    ensures Tracks(capacity, (cursor + 1) % capacity,
                   if |data| < capacity then data + [item] else data[cursor := item],
                   history + [item])
  {
    CursorAfterIsMod(|history|, capacity);
    AdvanceIsMod(cursor, capacity);
    if |data| < capacity {
      TracksAppend(capacity, cursor, data, history, item);
    } else {
      TracksOverwrite(capacity, cursor, data, history, item);
    }
  }

  /** The state a history leaves behind is unique: it fixes both the cursor and every slot. */
  lemma TracksDetermined<T>(capacity: nat, cursor1: nat, data1: seq<T>, cursor2: nat, data2: seq<T>, history: seq<T>)
    requires Tracks(capacity, cursor1, data1, history)
    requires Tracks(capacity, cursor2, data2, history)
    ensures cursor1 == cursor2 && data1 == data2
  {
    var view := Recent(history, |data1|);
    assert data1[cursor1..] == view[..|data1| - cursor1] == data2[cursor1..];
    assert data1[..cursor1] == view[|data1| - cursor1..] == data2[..cursor1];
    assert data1 == data1[..cursor1] + data1[cursor1..];
    assert data2 == data2[..cursor1] + data2[cursor1..];
  }

  /** The slots hold exactly the most recent `min(|history|, capacity)` items, counted with multiplicity. */
  lemma RetainsMostRecent<T>(capacity: nat, cursor: nat, data: seq<T>, history: seq<T>)
    requires Tracks(capacity, cursor, data, history)
    ensures |data| == Min(|history|, capacity) <= capacity
    ensures multiset(data) == multiset(history[|history| - |data|..])
  {
    assert data == data[..cursor] + data[cursor..];
    assert Chronological(data, cursor) == data[cursor..] + data[..cursor];
  }

  /** Once full, the cursor's slot holds the oldest retained item, the one pushed `capacity` pushes ago. */
  lemma OldestAtCursor<T>(capacity: nat, cursor: nat, data: seq<T>, history: seq<T>)
    requires Tracks(capacity, cursor, data, history)
    requires capacity > 0 && |data| == capacity
    ensures cursor < |data| && data[cursor] == history[|history| - capacity]
  {
    assert Chronological(data, cursor)[0] == data[cursor];
  }

  /** The slot just before the cursor (cyclically) holds the most recently pushed item. */
  lemma NewestBeforeCursor<T>(capacity: nat, cursor: nat, data: seq<T>, history: seq<T>)
    requires Tracks(capacity, cursor, data, history)
    requires |data| > 0
    ensures data[if cursor == 0 then |data| - 1 else cursor - 1] == history[|history| - 1]
  {
    assert Chronological(data, cursor)[|data| - 1] == Recent(history, |data|)[|data| - 1];
  }

  /** The cursor is back at slot 0 exactly when the buffer has just become full. */
  lemma CursorWrapsWhenFull<T>(capacity: nat, cursor: nat, data: seq<T>, history: seq<T>)
    requires Tracks(capacity, cursor, data, history)
    requires |history| == capacity
    ensures cursor == 0 && |data| == capacity
  {
    if capacity > 0 {
      CursorAfterIsMod(capacity, capacity);
      DivModUnique(capacity, capacity, 1, 0);
    }
  }
}
