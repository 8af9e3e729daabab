# cutils containers in Dafny

A verified model of the two container primitives of the cutils C library:

- the growable array (`struct DynArray`: `data`, `size`, `capacity`), which
  grows by the golden ratio. It comes in three variants:
  - the type-erased one in `src/data_structures/dyn_array.c`;
  - its macro-generated per-type twin in `include/cutils/data_structures/dyn_array_g.h`;
  - the older `elemCount`/`len` one in `src/dynarray.c`.
- the ring-buffer queue (`struct CyclicQueue`), which doubles when full and
  re-linearises a wrapped queue into the new buffer. It comes in two variants:
  - `front` + `size`, in `include/cyclic_queue.h` with `src/cyclic_queue.c`;
  - `front`/`back` pointers, in `src/data_structures/cyclic_queue.c`.

Every container is a class whose methods update its fields in place. Each
method's `ensures` states the new state in terms of the old one. The abstract
value is `Contents()` (the live slots of an array) or `Elements()` (the queue,
head first). Memory behaves as follows in the model:

- A buffer is a Dafny `array`. A NULL buffer is `null` where the source tests
  for it (the queues and `src/dynarray.c`).
- In `dyn_array.c`, a NULL buffer is an array of length 0. That variant never
  holds NULL with a non-zero capacity.
- `memmove` and `memcpy` are the element-level methods `Memory.Move`
  (overlap-safe) and `Memory.CopyIn`.
- The outcome of each `malloc`/`realloc` is a parameter: `allocOk` for a single
  request.
- `grants` is the number of successive requests granted in the growth loop of
  `dyn_insert` before one is refused.

Module layout:

- `Growth`: the growth policy in integer arithmetic.
  `Expanded(c) = (c * 1618033988749895 + 5 * 10^14) / 10^15`, which is
  floor(1.618033988749895 * c + 0.5), the constant of the sources. This gives
  the capacity sequence 8, 13, 21, 34, ... from the default capacity.
- `Memory`: `memmove` and `memcpy`.
- `Ring`: the circular view `Circular(buffer, front, size)` and its arithmetic.
- `DynArrays`: `dyn_array.c` and `dyn_array_g.h`. The two files are the same
  algorithm, so one class, generic in the element type, models both.
- `LegacyDynArrays`: `src/dynarray.c`.
- `CyclicQueues`: `include/cyclic_queue.h` with `src/cyclic_queue.c`.
- `TrackedCyclicQueues`: `src/data_structures/cyclic_queue.c`. Its pointers are
  slot positions, `Null` or `Slot(i)`.

Two preconditions come from the source itself:

- After `dyn_reset` an array has capacity 0.
  - EXPAND then requests floor(0.5) = 0 slots.
  - If such a reallocation reported success, `dyn_append` would write to slot 0
    of a 0-slot buffer, and `dyn_insert` would loop forever.
  - So `Append` requires `capacity >= 1 || !allocOk`, and `Insert` requires
    `capacity >= 1 || size + |src| <= capacity || grants == 0`.
- A queue needs at least one slot. With none, `cycq_push` computes an index
  modulo 0.
- `dyn_reset` of `src/dynarray.c` frees `data` but does not clear it. The
  model keeps the pointer and marks it with the ghost field `dangling`. A
  second reset (a double free) and any growth through `realloc` (a use after
  free) require it to be false.

## Model

| member | source | states |
|---|---|---|
| Growth.Expanded | src/data_structures/dyn_array.c:21 | EXPAND's request floor(phi*c + 0.5) never shrinks the capacity and at most doubles it. It strictly grows any capacity >= 1 (8 to 13). It leaves 0 at 0. The generic twin DYN_EXPAND is include/cutils/data_structures/dyn_array_g.h:14 |
| Growth.ExpandedTimes | src/data_structures/dyn_array.c:62-66 | k successive expansions from c >= 1 reach at least c + k; from 0 they stay at 0 |
| Growth.ExpandedTimesStep | src/data_structures/dyn_array.c:62-66 | one more turn of the growth loop applies EXPAND once more to the capacity reached so far |
| Growth.GrowthSteps | src/data_structures/dyn_array.c:62-66 | the growth loop stops after the least number of expansions that reaches the needed size. It is defined whenever the loop terminates: capacity >= 1, or no growth needed |
| Growth.ShortUntilSteps | src/data_structures/dyn_array.c:62 | the loop guard `capacity < size + srcLen` holds exactly before the last of those expansions |
| Growth.ExpandedTimesMonotone | src/data_structures/dyn_array.c:62-66 | more expansions never give a smaller capacity, so a failure mid-growth leaves capacity no smaller than before |
| Memory.Move | src/data_structures/dyn_array.c:69 | memmove: the moved block reads as before the move even when source and destination overlap; all other slots keep their values |
| Memory.CopyIn | src/cyclic_queue.c:17-21 | memcpy: the source elements land at the given offset; all other slots keep their values. The same method models the memmove of src/data_structures/dyn_array.c:70 for a source outside the buffer |
| DynArrays.Inserted | src/data_structures/dyn_array.c:67-71 | after an insert, slot by slot: the old prefix below pos, then src, then the old tail shifted up by srcLen |
| DynArrays.Removed | src/data_structures/dyn_array.c:80-85 | after a remove, slot by slot: the prefix below from, then the tail from `to` closed up. The size drops by to - from |
| DynArrays.RemoveUndoesInsert | src/data_structures/dyn_array.c:60-85 | removing [pos, pos+srcLen) after inserting src at pos restores the contents |
| DynArrays.RemoveUndoesAppend | src/data_structures/dyn_array.c:48-85 | removing [size, size+1) after appending restores the contents |
| DynArrays.InsertAtEndAppends | src/data_structures/dyn_array.c:75-78 | dyn_extend, which is insert at pos == size, appends src |
| DynArrays.DynArray.constructor | src/data_structures/dyn_array.c:23-35 | dyn_init sets size to 0 and, when allocation succeeds, capacity to 8. The generic twin is include/cutils/data_structures/dyn_array_g.h:32-44 |
| DynArrays.DynArray.Reset | src/data_structures/dyn_array.c:37-41 | dyn_reset releases the buffer (a new length-0 array stands for NULL) and zeroes size and capacity. The twin is dyn_array_g.h:46-50 |
| DynArrays.DynArray.ReallocData | src/data_structures/dyn_array.c:12-18 | reallocData: on success the buffer has newCapacity slots with the same contents; on failure data and capacity are unchanged. The twin is dyn_array_g.h:24-30 |
| DynArrays.DynArray.Expand | src/data_structures/dyn_array.c:21 | EXPAND: reallocate to Expanded(capacity), or change nothing when that fails |
| DynArrays.DynArray.ShrinkToFit | src/data_structures/dyn_array.c:43-46 | an empty array is left alone and reports true. Otherwise it returns whether the reallocation succeeded, and then capacity == size. Contents are always kept. The twin is dyn_array_g.h:52-55 |
| DynArrays.DynArray.Append | src/data_structures/dyn_array.c:48-58 | with room: no reallocation, elem appended, true. A full array first expands once. If that fails it returns false with size and contents unchanged. The twin is dyn_array_g.h:57-66 |
| DynArrays.DynArray.Reserve | src/data_structures/dyn_array.c:62-66 | the growth loop succeeds iff the allocator grants GrowthSteps requests. It then ends at capacity >= size + srcLen. On failure it stops at the capacity after `grants` expansions, never below the old one, with contents unchanged |
| DynArrays.DynArray.ShiftAndCopy | src/data_structures/dyn_array.c:67-71 | the tail moves up by srcLen, then src is copied into the gap: contents become Inserted(old, pos, src) |
| DynArrays.DynArray.Insert | src/data_structures/dyn_array.c:60-73 | on success contents become old[..pos] + src + old[pos..] and size grows by srcLen. On failure size and contents are unchanged and capacity is no smaller. The result says exactly when each happens. The twin is dyn_array_g.h:68-79 |
| DynArrays.DynArray.Extend | src/data_structures/dyn_array.c:75-78 | dyn_extend: on success contents become old + src. The result, the capacity reached in either outcome and the buffer frame are those of insert at pos == size. The twin is dyn_array_g.h:81-84 |
| DynArrays.DynArray.Remove | src/data_structures/dyn_array.c:80-85 | contents become old[..from] + old[to..size]. Size drops by to - from; buffer and capacity are unchanged. The twin is dyn_array_g.h:86-90 |
| DynArrays.AppendNine | src/data_structures/dyn_array.c:48-58 | nine appends to a new array: the only expansion, at the ninth, gives capacity 13, and the elements read back in order |
| LegacyDynArrays.GrownLen | src/dynarray.c:36 | the growth length fmax(count, round(phi*len)) is at least the requested count and strictly above len |
| LegacyDynArrays.DynArray.constructor | src/dynarray.c:17-23 | dyn_init: elemCount 0, len the requested length, data NULL when malloc fails |
| LegacyDynArrays.DynArray.Reset | src/dynarray.c:25-30 | dyn_reset: elemCount and len are 0, and `data` keeps its value, which is now dangling unless it was NULL. Reset requires a pointer that is not already dangling (no double free) |
| LegacyDynArrays.DynArray.Realloc | src/dynarray.c:37 | realloc: a fresh buffer of the new length keeping the old slots that fit; from NULL, a plain allocation |
| LegacyDynArrays.DynArray.SetElemCount | src/dynarray.c:32-48 | reallocates only when count > len, to GrownLen, keeping the old slots. On failure data becomes NULL and len is unchanged. elemCount becomes count either way. Growth requires a pointer that is not dangling, since realloc of freed memory is undefined |
| LegacyDynArrays.DynArray.IncrElemCount | src/dynarray.c:50-53 | exactly dyn_setElemCount(elemCount + 1), which always reallocates after a reset, so it requires a pointer that is not dangling |
| LegacyDynArrays.DynArray.ShrinkToFit | src/dynarray.c:55-68 | nothing happens unless len > elemCount. On success len == elemCount with the elements kept; on failure data is NULL |
| Ring.Circular | include/cyclic_queue.h:14-19 | the queue has exactly `size` elements, slot (front + i) % capacity for i < size |
| Ring.NextSlot | include/cyclic_queue.h:74 | the next slot is (i + 1) % capacity, always a valid slot |
| Ring.CircularHead | include/cyclic_queue.h:14-19 | the head of the queue is data[front] |
| Ring.CircularPush | include/cyclic_queue.h:60-62 | writing at (front + size) % capacity when size < capacity appends to the queue |
| Ring.CircularPop | include/cyclic_queue.h:74-75 | advancing front by one slot (mod capacity) with size - 1 drops the head |
| Ring.CircularLinear | src/cyclic_queue.c:14-21 | a queue with front + size > capacity is the block [front, capacity) followed by [0, size - (capacity - front)); otherwise it is the single block [front, front + size) |
| Ring.LastSlot | src/data_structures/cyclic_queue.c:19 | the back slot of a non-empty queue is a valid slot |
| Ring.LastSlotIsMod | src/data_structures/cyclic_queue.c:19 | the back slot is (front + size - 1) % capacity |
| Ring.WrapIffBackBeforeFront | src/data_structures/cyclic_queue.c:20 | backIndex < frontIndex exactly when the queue wraps past the end |
| Ring.NextAfterBack | src/data_structures/cyclic_queue.c:46 | (backIndex + 1) % capacity is the back of the queue one longer, the slot (front + size) % capacity |
| CyclicQueues.CyclicQueue.constructor | include/cyclic_queue.h:40-44 | cycq_init: size 0, front 0, capacity the argument, data NULL when malloc fails |
| CyclicQueues.CyclicQueue.Front | include/cyclic_queue.h:14-19 | data[front] is the head of the queue |
| CyclicQueues.CyclicQueue.Expand | src/cyclic_queue.c:8-25 | capacity doubles, front becomes 0, size is unchanged, and the new buffer holds the same queue. On allocation failure data is NULL |
| CyclicQueues.CyclicQueue.Push | include/cyclic_queue.h:54-64 | non-full: elem lands at (front + size) % capacity and the queue gains elem at its back, front unchanged. Full: it expands first. With NULL data nothing is written and size is unchanged. front < capacity and size <= capacity are kept |
| CyclicQueues.CyclicQueue.Pop | include/cyclic_queue.h:66-76 | requires size > 0. front becomes (front + 1) % capacity, size - 1, and the head leaves the queue |
| CyclicQueues.Drain | include/cyclic_queue.h:66-76 | reading the head and popping until empty yields the queue in FIFO order |
| CyclicQueues.WrappedExpansion | src/cyclic_queue.c:14-19 | capacity 4; push A,B,C,D; pop; push E; push G. This expands a wrapped queue, and popping gives B,C,D,E,G |
| TrackedCyclicQueues.CyclicQueue.constructor | src/data_structures/cyclic_queue.c:10 | init: empty queue, both positions NULL, capacity the argument, data NULL when malloc fails |
| TrackedCyclicQueues.CyclicQueue.Front | src/data_structures/cyclic_queue.c:8 | the element at front is the head of the queue |
| TrackedCyclicQueues.CyclicQueue.CopyOut | src/data_structures/cyclic_queue.c:16-27 | the two-block copy (when backIndex < frontIndex) or the one-block copy puts the queue in order at the start of the new buffer |
| TrackedCyclicQueues.CyclicQueue.Expand | src/data_structures/cyclic_queue.c:13-33 | capacity doubles, size is unchanged, front is slot 0, back is slot size - 1, and the queue is the same. On allocation failure data is NULL and so are both positions |
| TrackedCyclicQueues.CyclicQueue.Push | src/data_structures/cyclic_queue.c:35-52 | empty: front = back = slot 0 with elem there. Non-empty: back moves to (backIndex + 1) % capacity and elem is appended. Full: it expands first, and if that fails data and both positions are NULL. With NULL data nothing is written and size and positions are unchanged |
| TrackedCyclicQueues.CyclicQueue.Pop | src/data_structures/cyclic_queue.c:11 | the head leaves. The last element leaving makes both positions NULL; otherwise front advances one slot. The body is not in the source; it is modelled on the front + size variant's pop |
| TrackedCyclicQueues.Drain | src/data_structures/cyclic_queue.c:11 | popping until empty yields the queue in FIFO order |
| TrackedCyclicQueues.WrappedExpansion | src/data_structures/cyclic_queue.c:19-24 | the same run: back wraps to slot 0 before front at slot 1, the next push expands the wrapped queue, and popping gives B,C,D,E,G |

## Left out

- Floating-point growth. The model uses the decimal constant exactly, while the
  sources multiply in `double` or `long double` and convert to `size_t`. Both
  the FE_INEXACT note at `src/data_structures/dyn_array.c:20` and the
  `fmax`/`round` rounding of `src/dynarray.c:36` are replaced by the integer
  formula. The two agree except where the float product lies within rounding
  error of a half-integer.
- Memory management itself: byte strides (`elemSize`, `sizeof(type)`), pointer
  invalidation after reallocation, and leaks. For example, the old buffer that
  `src/cyclic_queue.c` drops on a failed expansion is never freed. Also left
  out are `free` itself (only the dangling pointer `dyn_reset` leaves behind is
  tracked) and `restrict` aliasing.
- `size_t` wrap-around: sizes are unbounded naturals.
- CyclicQueues.CyclicQueue.Expand: `src/cyclic_queue.c:16` stores
  `capacity - front` in an `int`. The model keeps it a natural, so it does not
  capture the implementation-defined narrowing above INT_MAX elements, nor the
  wrong copy lengths at lines 17-18 that would follow from it.
- LegacyDynArrays.DynArray.Reset: the source leaves `data` dangling after
  `free`. The model keeps the pointer and marks it `dangling`, but says nothing
  of what a reallocation or second free through it would do, since that is
  undefined in the source. Such calls are excluded by the requires of `Reset`,
  `SetElemCount` (when it would grow) and `IncrElemCount`. A caller testing
  `data` for NULL cannot tell a reset array from a live one.
- The `dyn_init` path that allocates the struct itself when passed NULL. Only a
  caller-supplied struct is modelled.
- The capacity `dyn_init` leaves unset after a failed allocation. The model
  sets it to 0, matching the NULL buffer.
- DynArrays.DynArray.Insert: `src` is a sequence value, so a `src` that points
  into the array's own buffer is not modelled.
- `dyn_insert` and `dyn_append` of `src/dynarray.c:70-84`. They offset a
  `void*` without scaling by `elemSize`, and `dyn_insert` moves with the
  already-updated count. The newer variants cover what they intend. The
  `dyn_push` macro of `include/dynarray.h` is left out for the same reason.
- The header `data_structures/cyclic_queue.h` is not part of this model. It
  holds the struct, `cycq_init`, `cycq_pop`, `cycq_frontIndex` and
  `cycq_backIndex` of the front/back variant.
  - The positions are slot numbers here, and the index helpers are the slot
    numbers themselves.
  - Only the declarations of init and pop are in the source
    (`src/data_structures/cyclic_queue.c:10-11`). Their bodies are modelled on
    the front + size variant's: pop advances `front` one slot, and both
    positions become NULL when the queue becomes empty.
- TrackedCyclicQueues.CyclicQueue.Pop: requires a live buffer. After a failed
  expansion the source's positions are no longer slots of any buffer.
- TrackedCyclicQueues.CyclicQueue.Expand: requires a non-empty queue. The
  source derives the back index from a `back` pointer that is NULL when the
  queue is empty. After a failed expansion the source sets `back` to an
  offset from NULL; the model makes it `Null`.
- CyclicQueues.CyclicQueue.Expand: requires a live buffer, since the source
  copies out of `data`. `cycq_push` only expands a full queue, and a queue
  whose buffer was lost is never full.
- Concurrency: the containers are single-owner and have none.
