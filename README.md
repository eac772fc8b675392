# ErasedVec in Dafny

A model of `ErasedVec`, the type-erased growable array of `src/lib.rs`. An `ErasedVec` fixes
its element type when it is built, as a runtime type token plus the element's byte size and
alignment. It keeps its elements as raw bytes, slot after slot, in one buffer of
`cap * element_size` bytes. The typed operations `push`, `get` and `into_vec`, and each `next`
of the iterator (through `get`), compare their own type token with the stored one and panic on a
mismatch. `remove::<T>` is typed too but checks nothing: it reads `size_of::<T>()` bytes at the slot, whatever `T` is.

The model is at byte level and follows the code as written:

- `outcomes.dfy` (module `Outcomes`): `Option`, the three panics the source raises on purpose
  (`TypeMismatch` from `assert_eq!` on the type id, `PopOnEmpty`, `IndexOutOfBounds`), and
  `Outcome<T>`, either a value or a panic. On a panic the state is left unchanged.
- `bytes.dfy` (module `Bytes`): the typed view of a byte buffer and the byte moves.
  - `Offset(i, size)` is the byte offset `i * size` of slot `i`, built up slot by slot.
  - `Slots` cuts a byte run into `size`-byte elements.
  - `Moved` is `std::ptr::copy`, with memmove semantics.
  - `EraseShift` is the byte move `erase` makes as written. `ClosedGap` is the one it was meant to make.
- `memory.dfy` (module `Memory`): in-place `std::ptr::copy_nonoverlapping` and `std::ptr::copy`
  on a byte array, each proved to equal its specification function.
- `erased_vec.dfy` (module `ErasedVecs`):
  - the class `ErasedVec`. Its fields are the source's fields: the buffer as an `array<bv8>`, a
    null-pointer flag, `len` and `cap`. Its invariant `Valid()` says the buffer holds exactly
    `cap` slots and that `len <= cap`.
  - the iterator class `IntoIter`.
  - `Collect`, which runs an iterator to its first `None`.
- `scenarios.dfy` (module `Scenarios`): the repository's unit tests (`test_i32`,
  `test_struct`, `test_zero_cap`, `test_pop`, `test_pop_empty`, `test_remove`, `test_iter`)
  replayed as verified methods, plus type mismatch, clone independence and an erase of one-byte
  elements.

The code differs from its own comments and from the intended design in these places. The model
follows the code:

- `grow` on capacity 0 (`src/lib.rs:58-64`): the comment says it allocates one slot "and
  return"s, but there is no `return`. It falls through and doubles, so the first growth yields
  capacity 2 (`ErasedVec.Grow`, `Scenarios.TestZeroCap`).
- `grow` copies the whole old buffer, `cap * element_size` bytes, not only the live bytes.
  `Grow` states that the whole old buffer survives.
- `erase` has no bounds check. For `index >= len - 1` it only decrements `len`, so an
  out-of-range `erase` silently drops the last element (`Bytes.EraseShiftAtOrPastEnd`).
- `erase` moves `len - 1 - index` bytes, not elements. `into_vec` never sets the length of the
  `Vec` it fills. Both are in the "Findings" section below.

## Model

| member | source | states |
|---|---|---|
| Bytes.Offset | src/lib.rs:99 | the byte offset of slot `i`, built up slot by slot; its value is `i * element_size` by `Bytes.OffsetIsProduct`, the pointer offset of `push` (and of `get` at :125 and `erase` at :136) |
| Bytes.Slots | src/lib.rs:125 | the typed view that `get` reads through: a run of `n * size` bytes cut into `n` elements of `size` bytes, in order |
| Bytes.Moved | src/lib.rs:136 | `std::ptr::copy` on a byte buffer: the result has the same length, bytes `[dst, dst + count)` are the old bytes `[src, src + count)`, and every other byte is unchanged (pointwise in `Bytes.MovedAt`) |
| Bytes.EraseShift | src/lib.rs:134-138 | `erase`'s byte move as written: when `index < len - 1`, `len - 1 - index` bytes move from slot `index + 1` to slot `index`; otherwise nothing moves |
| Bytes.ClosedGap | src/lib.rs:133-141 | the corrected byte move of `erase`: all `(len - 1 - index) * size` bytes after slot `index` move down one slot |
| Bytes.OffsetIsProduct | src/lib.rs:99 | the slot offset built slot by slot equals `index * element_size`, the pointer offset the source computes |
| Bytes.OffsetAdd | src/lib.rs:136 | proof helper for the slot-by-slot offset: offsets of `i` slots then `j` more slots add up (so slot `index + 1` starts one slot after slot `index`) |
| Bytes.SlotAt | src/lib.rs:125 | element `j` of the typed view is exactly the `element_size` bytes at byte offset `j * element_size` |
| Bytes.SlotsAppend | src/lib.rs:96-105 | writing a value's bytes right after the live bytes appends exactly that value as the next element |
| Bytes.SlotsRemoveAt | src/lib.rs:146-157 | deleting the bytes of slot `i` deletes element `i` and keeps every other element in order; this is what the corrected erase (`ClosedGapDeletesSlot`) does, and what `remove` as written does only with one-byte elements |
| Bytes.EraseShiftKeepsEarlierSlot | src/lib.rs:133-141 | `erase` as written never changes an element in front of `index` |
| Bytes.EraseShiftKeepsEarlierSlots | src/lib.rs:133-141 | after `erase` as written, every element in front of `index` is still there, at the same position |
| Bytes.EraseShiftUnitSize | src/lib.rs:136 | with one-byte elements the byte count equals the element count, and the as-written shift deletes element `index` |
| Bytes.EraseShiftAtOrPastEnd | src/lib.rs:134-140 | with no copy (index at or past the last slot), the elements left are the old ones minus the last |
| Bytes.EraseShiftMisplacesWideSlots | src/lib.rs:136 | a concrete input on which `erase` as written does not delete: two-byte elements `[1,2] [3,4] [5,6]`, erasing element 0, leave `[3,4] [3,4]` |
| Bytes.ClosedGapLiveBytes | src/lib.rs:133-141 | the intended erase leaves the live bytes before slot `index` followed by the live bytes after it |
| Bytes.ClosedGapDeletesSlot | src/lib.rs:133-141 | the intended erase deletes element `index` and keeps all others in order |
| Memory.CopyNonoverlapping | src/lib.rs:74 | after `copy_nonoverlapping` the first `count` bytes of the destination equal the source's, the rest are unchanged |
| Memory.WriteBytes | src/lib.rs:97-101 | the value's bytes land at the given offset and no other byte changes |
| Memory.Copy | src/lib.rs:136 | the array after `std::ptr::copy` equals `Moved` of its old contents (memmove, overlap allowed) |
| ErasedVecs.ErasedVec.New | src/lib.rs:29-39 | a new vector records the type and layout, holds no elements, has capacity 0 and a null pointer |
| ErasedVecs.ErasedVec.WithCapacity | src/lib.rs:41-54 | a pre-sized vector has room for exactly `capacity` elements and none live |
| ErasedVecs.ErasedVec.Grow | src/lib.rs:57-85 | capacity goes from 0 to 2 and otherwise doubles; the whole old buffer is copied to the front of a fresh one; the elements are unchanged |
| ErasedVecs.ErasedVec.Push | src/lib.rs:87-106 | a wrong type panics and changes nothing; otherwise the elements become the old ones followed by `value`; the vector grows exactly when it was full, and the buffer is otherwise kept |
| ErasedVecs.ErasedVec.Pop | src/lib.rs:108-112 | an empty vector panics; otherwise the last element is dropped, and neither bytes nor capacity change |
| ErasedVecs.ErasedVec.Len | src/lib.rs:114-116 | `len` is the number of elements |
| ErasedVecs.ErasedVec.Get | src/lib.rs:118-128 | a wrong type panics; an index at or past `len` gives `None`; otherwise it gives the element at that index |
| ErasedVecs.ErasedVec.Erase | src/lib.rs:133-141 | the buffer becomes the as-written byte shift of the old one, `len` drops by one, and the elements are the slots of the shifted bytes |
| ErasedVecs.ErasedVec.Remove | src/lib.rs:146-157 | an index at or past `len` panics and changes nothing; otherwise it returns the `size_of::<T>()` old bytes at slot `index`, which are the old element there when `T` has the element's size, and then erases as written |
| ErasedVecs.ErasedVec.EraseIntended | src/lib.rs:133-141 | the corrected erase: every later slot moves down one whole slot, and the elements become the old ones with element `index` deleted |
| ErasedVecs.ErasedVec.RemoveIntended | src/lib.rs:146-157 | `remove` over the corrected erase: it returns element `index` and deletes it, keeping the others in order |
| ErasedVecs.ErasedVec.IntoVec | src/lib.rs:159-172 | a wrong type panics; otherwise the returned `Vec` is empty, whatever the vector holds |
| ErasedVecs.ErasedVec.IntoVecIntended | src/lib.rs:159-172 | the corrected copy-out: a wrong type panics; otherwise it returns `len` elements, and element `i` is what `get(i)` returns |
| ErasedVecs.IntoVecDropsElements | src/lib.rs:162-171 | for every non-empty vector, `into_vec` as written returns an empty `Vec` and differs from the intended copy-out |
| ErasedVecs.ErasedVec.Iter | src/lib.rs:176-182 | a fresh iterator over this vector starts at index 0 |
| ErasedVecs.IntoIter.constructor | src/lib.rs:177-181 | the iterator records the vector, the type, and index 0 |
| ErasedVecs.IntoIter.Next | src/lib.rs:227-231 | `next` returns `get(i)` and then advances; a panicking `get` does not advance |
| ErasedVecs.Collect | src/lib.rs:342 | collecting an iterator gives every element in order, or the type-mismatch panic |
| ErasedVecs.ErasedVec.Clone | src/lib.rs:198-216 | a clone has a fresh buffer of the same capacity, the same type, layout and length, and the same live bytes and elements |
| ErasedVecs.ErasedVec.DropDeallocation | src/lib.rs:185-196 | `drop` hands a buffer back exactly when the capacity is positive, and that buffer is the whole `cap * element_size` bytes with the element alignment |

## Left out

- The allocator is modelled as `new` for allocation. Deallocation does nothing, except that `DropDeallocation` reports the layout `drop` would release.
- Allocation failure and `Layout` errors are left out; the source turns both into panics via `unwrap`.
- `usize` overflow is left out, including of `cap * element_size` and `2 * cap`. Integers are unbounded.
- Alignment is stored and reported but never checked, as in the source.
- Element values are their bytes. Rust's layout of `T`, its padding and endianness are outside the model. `Scenarios` writes `i32` values as four little-endian bytes.
- Destructors are not modelled. This covers elements dropped by `pop`, `erase` and `drop`. It also covers `push` never calling `mem::forget` on the value it copies in, so the source runs the value's destructor on the original.
- `get` returns a reference into the buffer in the source. The model returns a copy of the element's bytes, so aliasing of that reference is not captured.
- The borrow that keeps the vector unchanged while an `IntoIter` is alive is not modelled. `Collect` calls nothing that changes the vector.
- `TypeId` is a natural-number token, and `PhantomData` is left out.
- Erase: requires `len > 0`, because `len - 1` underflows in the source when `len` is 0.
- Erase: requires `element_size > 0` when a copy happens, because a copy within a zero-byte allocation is undefined behaviour.
- Remove: inherits these requirements of `Erase` when `index < len`.
- Remove: `T` is not compared with the element type, as in the source. It is modelled only by its size `readSize`. A read of `size_of::<T>()` bytes that runs past the end of the buffer is undefined behaviour in the source and is excluded by a precondition.
- Clone: requires that the vector has allocated at least once. The source copies from a null pointer otherwise, which is undefined behaviour.
- Push: requires that a value of the stored type is `element_size` bytes long; in Rust this holds by the type system.
- The micro-benchmark under `benches/` is not part of this model.
- The test's `println!` calls are not part of this model.

## Findings

| source | as written | input that shows it | evidently intended | confidence | as-written member | corrected member |
|---|---|---|---|---|---|---|
| src/lib.rs:136 | `erase` passes `len - 1 - index` as the count to `std::ptr::copy` on `*mut u8` pointers, so it moves that many bytes, not elements | element size 2, `len` 3, buffer `[1,2,3,4,5,6]`, `erase(0)`: the elements become `[3,4] [3,4]` instead of `[3,4] [5,6]` (and `remove` inherits this) | move `(len - 1 - index) * element_size` bytes | high; not executed | Bytes.EraseShiftMisplacesWideSlots | ErasedVecs.ErasedVec.EraseIntended |
| src/lib.rs:162-171 | `into_vec` copies the live bytes into the spare capacity of a fresh `Vec` but never calls `set_len`, so the `Vec` it returns is always empty | any vector with at least one element, for example after one `push` | set the returned `Vec`'s length to `len` after the copy | high; not executed | ErasedVecs.IntoVecDropsElements | ErasedVecs.ErasedVec.IntoVecIntended |
