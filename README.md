# Replay memory, modelled in Dafny

`ReplayMemory` (src/lib.rs) is a fixed-capacity ring buffer of opaque items,
used as the store behind experience replay. It has two phases. While it is
*filling*, `push` appends to its vector. Once it is *saturated* (length equal
to capacity), `push` overwrites the slot under a cursor `index`. After every
push, appends included, the cursor advances by one modulo the capacity. Around
this sit a bounds-checked `get` (also `__getitem__`), a batch `push_items`, the
queries `is_full`, `is_empty` and `__len__`, a random `sample` of distinct
slots, and `__repr__`, which renders `ReplayMemory([a, b, c])`.

The model has four modules:

- `Ring` (ring.dfy) states the ring discipline on plain values. The predicate
  `Tracks(capacity, cursor, data, history)` relates a buffer to every item ever
  pushed (`history`, oldest first). It says:
  - the buffer holds `min(|history|, capacity)` slots;
  - the cursor is where `|history|` advances from 0 leave it (`CursorAfter`),
    which a lemma proves equal to `|history| % capacity` for a positive
    capacity; at capacity 0 it stays 0;
  - while filling, the cursor equals the length;
  - reading the slots from the cursor round to just before it gives the most
    recent items in arrival order. So once full, the cursor sits on the oldest
    item.

  The lemmas prove that one push keeps `Tracks`, and that the history fixes
  the whole state. They also prove that the buffer retains exactly the most
  recent items, that the oldest item is at the cursor, and that the newest
  item is just before it.
- `Replay` (replay_memory.dfy) has the class `ReplayMemory<T>`. Its fields are
  `capacity` (a constant), `index` and `data: seq<T>`, plus a ghost `History`.
  `Valid()` is `Tracks` over those fields. `Push` and `PushItems` are methods
  that update the fields in place. `Sample` and `Repr` are methods with loops.
  The read-only queries are functions.
- `Render` (render.dfy) defines the rendering: `Join` with separator `", "`,
  and `Rendered`, which wraps it in `ReplayMemory([` … `])`.
- `Scenarios` (scenarios.dfy) holds the repository's test scenarios as client
  methods, each promising the outcome that test checks.

The capacity is the one requested at construction. The source reads it back
as the vector's allocated capacity, and relies on `Vec::with_capacity` giving
exactly the requested amount.

A zero capacity is legal to construct. It is then both full and empty,
because the source defines `is_full` as `len == capacity`. `push` on it would
index an empty vector and then take `% 0`, both of which panic. So `Push`
requires `capacity > 0`. `PushItems` requires `capacity > 0` or an empty
batch, since an empty batch never calls `push`. A zero-capacity push panics in
the code; the model does not turn it into a no-op.

## Model

| member | source | states |
|---|---|---|
| `Replay.ReplayMemory.constructor` | src/lib.rs:17-23 | a new memory has the requested capacity, cursor 0, no items and an empty history, and satisfies the ring invariant |
| `Replay.ReplayMemory.Get` | src/lib.rs:25-29 | succeeds exactly when `i < len`, with the item in slot `i`; otherwise fails with the out-of-range error "index is out of range" |
| `Replay.ReplayMemory.Push` | src/lib.rs:31-39 | while filling, appends the item and leaves every earlier slot unchanged. Once full, overwrites only the cursor's slot and keeps the length. In both cases the cursor becomes `(old cursor + 1) % capacity`, that is the next slot or 0 after the last one, the history grows by the item, and the ring invariant is kept. Requires a positive capacity, because the source panics at capacity 0 |
| `Replay.ReplayMemory.PushItems` | src/lib.rs:41-45 | the history grows by the whole batch in order and the ring invariant holds; together with `Ring.TracksDetermined` this means the end state is the one that pushing the items one by one gives. An empty batch changes nothing |
| `Replay.ReplayMemory.Sample` | src/lib.rs:47-52 | returns `min(n, len)` items drawn without replacement (`DrawnWithoutReplacement`): each item is the content of a slot, no slot is chosen twice, and so the items, as a multiset, are contained in the stored items |
| `Replay.ReplayMemory.IsFull` | src/lib.rs:54-57 | true iff `len == capacity`, which holds iff at least `capacity` items have been pushed |
| `Replay.ReplayMemory.IsEmpty` | src/lib.rs:59-62 | true iff `len == 0`, which holds iff nothing was pushed or the capacity is 0 |
| `Replay.ReplayMemory.GetItem` | src/lib.rs:64-66 | the same outcomes as `Get`: the slot's item below the length, the out-of-range error at or past it |
| `Replay.ReplayMemory.Length` | src/lib.rs:68-70 | the length is `min(pushes so far, capacity)` |
| `Replay.ReplayMemory.Repr` | src/lib.rs:72-85 | the loop builds exactly `Rendered(show, data)`: `ReplayMemory([` + the items' strings joined by `", "` + `])` |
| `Ring.TracksInitially` | src/lib.rs:18-23 | the empty buffer with cursor 0 satisfies the ring invariant for every capacity |
| `Ring.CursorAfterIsMod` | src/lib.rs:37-38 | after any number of pushes, the cursor equals the number of pushes modulo the capacity, so it always lies below the capacity |
| `Ring.AdvanceIsMod` | src/lib.rs:37-38 | advancing a cursor that lies below the capacity gives `(cursor + 1) % capacity`: the next slot, or 0 after the last one |
| `Ring.TracksAppend` | src/lib.rs:32-33 | while filling, appending the item and advancing the cursor keeps the ring invariant for the history extended by the item |
| `Ring.TracksOverwrite` | src/lib.rs:34-35 | once full, the cursor lies inside the buffer, and overwriting its slot and advancing it keeps the ring invariant for the history extended by the item |
| `Ring.TracksPush` | src/lib.rs:31-39 | appending while filling, or overwriting the cursor slot once full, and then advancing the cursor modulo capacity, keeps the ring invariant for the history extended by the item. The cursor is inside the buffer whenever it is full |
| `Ring.TracksDetermined` | src/lib.rs:41-45 | the push history fixes the cursor and every slot, so any two ways of reaching the same history (a batch or single pushes) leave the same state |
| `Ring.RetainsMostRecent` | src/lib.rs:31-39 | the length is `min(pushes, capacity) <= capacity`, and the slots hold, as a multiset, exactly the most recent that many pushed items |
| `Ring.OldestAtCursor` | src/lib.rs:34-38 | once full, the cursor's slot holds the item pushed `capacity` pushes ago, which is the oldest retained one and the next to be overwritten |
| `Ring.NewestBeforeCursor` | src/lib.rs:31-39 | the slot just before the cursor, wrapping to the last slot when the cursor is 0, holds the most recent push |
| `Ring.CursorWrapsWhenFull` | src/lib.rs:37-38 | after exactly `capacity` pushes the buffer is full and the cursor is back at 0 |
| `Render.JoinCons` | src/lib.rs:76-81 | the right-to-left join matches the left-to-right reading: the first part, a separator, then the rest joined |
| `Render.JoinEndsWithLast` | src/lib.rs:76-81 | the joined text ends with the last part, so there is no trailing separator |
| `Render.JoinStartsWithFirst` | src/lib.rs:76-81 | the joined text begins with the first part, so there is no leading separator |
| `Render.RenderedEmpty` | src/lib.rs:72-85 | an empty memory renders as `ReplayMemory([])` |
| `Render.RenderedThree` | src/lib.rs:72-85 | three items render as `ReplayMemory([a, b, c])` with comma-space separators |
| `Scenarios.OverwritesOldest` | src/lib.rs:100-116 | capacity 5 with pushes 0..5 leaves exactly `[5, 1, 2, 3, 4]` |
| `Scenarios.CapacityUnchanged` | src/lib.rs:118-129 | capacity 5 with 500 pushes keeps capacity 5 and length 5 |
| `Scenarios.Samples` | src/lib.rs:131-141 | capacity 5 filled with five items gives a 3-item sample, whatever the random draws |
| `Scenarios.BatchOverwrites` | tests/replay_memory_test.py:4-8 | capacity 10 with a batch of 0..10 puts 10 in slot 0 |
| `Scenarios.BatchCapacityUnchanged` | tests/replay_memory_test.py:11-15 | capacity 10 with a batch of 100 items has length 10 |
| `Scenarios.ZeroCapacity` | src/lib.rs:54-62 | a capacity-0 memory is both full and empty |

## Left out

- Python binding glue is not modelled: the `#[pyclass]`/`#[pymethods]`/`#[getter]` attributes, the module registration (src/lib.rs:88-92), the conversion of the error to `PyIndexError`, and `PyObject` reference counting and `.cloned()`. Items are an opaque type parameter, and the error is the `Error` datatype carrying the source's message.
- Sample: states the size and that the chosen slots are distinct. It does not state uniformity, which is a statistical property of the random source. The random numbers come in as the parameter `draw`, and the slot choice is modelled as the in-place partial Fisher-Yates shuffle of slot numbers. The random library may pick a different index-sampling algorithm by size; any of them gives distinct slots, but the order of the result is not modelled.
- Repr: an item's string conversion (Python's `str`) is the parameter `show`, an uninterpreted function from item to string.
- The allocator behind `Vec::with_capacity` is not modelled; `capacity` is a constant fixed at construction.
- Push on a zero-capacity memory panics in the source, so it is a precondition rather than modelled behaviour.
- Machine integer widths are not modelled. The cursor is always below the capacity, so `index + 1` cannot overflow a `usize`.
