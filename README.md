# rogue-engine memory subsystem in Dafny

This project models the memory core of the rogue engine:

- `Rogue::Stack<T>`: a fixed-capacity stack backed by an array.
- `Rogue::PoolAllocator<T>`: a fixed number of same-typed slots. Free slots are kept on such a stack, and the slot freed last is handed out next.
- `Rogue::StackAllocator`: a bump-pointer arena over one byte buffer. It keeps one record per allocation, so that destructors can run last-first, and a stack of markers for scoped rollback.
- `Rogue::NextMultiple`: the alignment helper that the arena uses.

The files are:

- `Wrappers.dfy`: `Option`, where `None` stands for the null pointer.
- `MathUtil.dfy`: `NextMultiple` and its properties.
- `Stack.dfy`, module `Types`: the `Stack` class over an `array`.
- `PoolAllocator.dfy`, module `PoolAllocation`: the `PoolAllocator` class.
- `StackAllocator.dfy`, module `StackAllocation`: the `StackAllocator` class.

The pool and the arena are classes whose methods update their fields in place, as in the source. Their loops carry invariants. Each method is specified against ghost abstractions:

- `Stack.Contents()`: the stack's elements, bottom first.
- `PoolAllocator.FreeChunks()` and the ghost map `live`: the free slots and the constructed objects.
- `StackAllocator.Records()`, `Markers()`, the ghost `markerCounts` and the ghost log `destroyed`.

The source's fatal assertions (`ROGUE_ASSERT`) become preconditions. These are the stack overflowing or underflowing, a pointer outside the pool, and an arena marker stack that is empty.

The pool has two invariants:

- `Valid()`: every free-stack entry is a slot of the pool.
- `Sound()`: the free slots are distinct, and a slot is live exactly when it is not free.

Allocation keeps `Sound()`. Deallocation keeps it only for a slot that is actually live, because the source does not guard against a double free.

In the arena, addresses are natural numbers and the buffer starts at address `data`. The invariant `Arena` says four things:

- the records lie back to back from `data`;
- each record's root is where the previous object ended;
- the head is the end of the last object, within the buffer;
- every marker is the head as it was when its record count was current.

Running an object's destructor appends its id to `destroyed`.

## Model

| member | source | states |
|---|---|---|
| `MathUtil.NextMultiple` | include/rogue/core/math/Util.hpp:6-10 | the result is a multiple of `multipleOf`, at least `value` and less than `value + multipleOf` |
| `MathUtil.NextMultipleIsLeast` | include/rogue/core/math/Util.hpp:6-10 | no multiple of `m` that is at least `v` lies below `NextMultiple(m, v)`, so the result is the first aligned address |
| `MathUtil.NextMultipleOfMultiple` | include/rogue/core/math/Util.hpp:6-10 | a value that is already aligned comes back unchanged |
| `MathUtil.NextMultipleIdempotent` | include/rogue/core/math/Util.hpp:6-10 | aligning twice gives the same result as aligning once |
| `Types.Stack.Contents` | include/rogue/core/types/Stack.hpp:44-47 | the contents are the first `m_HeadIndex` array slots, never more than the capacity |
| `Types.Stack.constructor` | include/rogue/core/types/Stack.hpp:12-15 | a new stack has the requested capacity and no elements |
| `Types.Stack.GetSize` | include/rogue/core/types/Stack.hpp:19 | the size is the capacity of the element storage |
| `Types.Stack.GetCount` | include/rogue/core/types/Stack.hpp:20 | the count is the number of elements held, and never exceeds the size |
| `Types.Stack.IsEmpty` | include/rogue/core/types/Stack.hpp:21 | true exactly when the stack holds no element |
| `Types.Stack.IsFull` | include/rogue/core/types/Stack.hpp:22 | true exactly when the number of elements equals the capacity |
| `Types.Stack.Push` | include/rogue/core/types/Stack.hpp:24-29 | when not full, the element is appended on top and the elements below are unchanged |
| `Types.Stack.Pop` | include/rogue/core/types/Stack.hpp:31-36 | when not empty, it returns the top element and the rest of the stack is as before |
| `Types.Stack.Peek` | include/rogue/core/types/Stack.hpp:38-42 | when not empty, it returns the top element and changes nothing |
| `Types.Stack.Clear` | include/rogue/core/memory/StackAllocator.hpp:67 | afterwards the stack is empty |
| `Types.PushThenPop` | include/rogue/core/types/Stack.hpp:24-36 | a push followed by a pop returns the pushed value and restores the previous contents |
| `Types.FillAndDrain` | test/source/core/types/Stack.cpp:5-44 | after pushing 0..n-1 the stack is full; popping gives back n-1 down to 0 and leaves it empty |
| `PoolAllocation.PartitionCount` | include/rogue/core/memory/PoolAllocator.hpp:88-89 | when the free slots and the live slots partition the pool, their counts add up to the pool size |
| `PoolAllocation.PoolAllocator.FreeChunks` | include/rogue/core/memory/PoolAllocator.hpp:97 | the free stack never holds more entries than there are slots |
| `PoolAllocation.PoolAllocator.constructor` | include/rogue/core/memory/PoolAllocator.hpp:29-39 | every slot is free and none is live; the slots are pushed from the highest down, so slot 0 (the lowest address) is on top |
| `PoolAllocation.PoolAllocator.Allocate` | include/rogue/core/memory/PoolAllocator.hpp:57-66 | returns null exactly when no slot is free; otherwise it returns the slot on top of the free stack, takes it off the stack and constructs the object there; a slot that was not live is handed out, so ownership stays sound |
| `PoolAllocation.PoolAllocator.Deallocate` | include/rogue/core/memory/PoolAllocator.hpp:76-85 | for a slot within range, the object there is destroyed and the slot is pushed as the next to hand out; ownership stays sound when the slot was live |
| `PoolAllocation.PoolAllocator.CountsAgree` | include/rogue/core/memory/PoolAllocator.hpp:88-89 | when ownership is sound, live objects plus free chunks equal the pool size |
| `PoolAllocation.PoolAllocator.GetObjectCount` | include/rogue/core/memory/PoolAllocator.hpp:88 | the size minus the free chunks, which is the number of live objects when ownership is sound |
| `PoolAllocation.PoolAllocator.GetFreeChunkCount` | include/rogue/core/memory/PoolAllocator.hpp:89 | the number of free slots, which is the size minus the live objects when ownership is sound |
| `PoolAllocation.PoolAllocator.GetSize` | include/rogue/core/memory/PoolAllocator.hpp:90 | the capacity of the free stack, which is the number of slots |
| `PoolAllocation.ReuseAfterFree` | include/rogue/core/memory/PoolAllocator.hpp:18-19 | freeing a live slot and then allocating returns that same slot, and leaves the free stack as before |
| `PoolAllocation.AllocateUntilExhausted` | test/source/core/memory/PoolAllocator.cpp:34-61 | a new pool of n slots hands out slots 0..n-1 in address order and then null, with the counts going from 0/n to n/0 |
| `PoolAllocation.RefillFreedSlot` | test/source/core/memory/PoolAllocator.cpp:68-90 | in a full pool, freeing slot k makes the next allocation return k and the one after return null |
| `PoolAllocation.DoubleFreeHazard` | include/rogue/core/memory/PoolAllocator.hpp:76-85 | freeing slot 0 twice is accepted, and the next two allocations both hand out slot 0 |
| `StackAllocation.ChainedPrefix` | include/rogue/core/memory/StackAllocator.hpp:77-82 | any bottom part of a back-to-back record stack is itself back to back |
| `StackAllocation.TopIncreases` | include/rogue/core/memory/StackAllocator.hpp:42-58 | the head after fewer records is strictly lower, because objects are never empty |
| `StackAllocation.TopInjective` | include/rogue/core/memory/StackAllocator.hpp:77 | a head value fixes how many records are outstanding, so stopping when the head meets the marker stops at the marker's record count |
| `StackAllocation.TopAtBaseIffEmpty` | include/rogue/core/memory/StackAllocator.hpp:34-35 | the head is at the buffer start exactly when no record is outstanding |
| `StackAllocation.DestroyOrderAt` | include/rogue/core/memory/StackAllocator.hpp:62-65 | unwinding destroys one object per record, and the k-th one destroyed is the k-th record from the top |
| `StackAllocation.DestroyOrderAppend` | include/rogue/core/memory/StackAllocator.hpp:60-83 | rolling back to a marker and then unwinding the rest destroys the same objects, in the same order, as unwinding everything at once |
| `StackAllocation.DestroyOrderStep` | include/rogue/core/memory/StackAllocator.hpp:63-64 | popping one more record puts its destruction after the ones already run |
| `StackAllocation.UnwindStep` | include/rogue/core/memory/StackAllocator.hpp:77-81 | taking the top record off leaves a back-to-back stack whose head is that record's root |
| `StackAllocation.ArenaEmpty` | include/rogue/core/memory/StackAllocator.hpp:21-27 | an arena with the head at the start and no records or markers satisfies the invariant |
| `StackAllocation.ArenaAllocate` | include/rogue/core/memory/StackAllocator.hpp:42-58 | a record placed at the head and within the buffer keeps the invariant |
| `StackAllocation.ArenaPushMarker` | include/rogue/core/memory/StackAllocator.hpp:70 | saving the head as a marker keeps the invariant |
| `StackAllocation.ArenaRollback` | include/rogue/core/memory/StackAllocator.hpp:72-83 | cutting the records back to the top marker's count and dropping that marker keeps the invariant, with the head at the marker |
| `StackAllocation.StackAllocator.constructor` | include/rogue/core/memory/StackAllocator.hpp:21-27 | the head is at the buffer start with no records and no markers; the two stacks hold size/24 records and size/8 markers |
| `StackAllocation.StackAllocator.Destroy` | include/rogue/core/memory/StackAllocator.hpp:34-40 | the destructor's check that the head is back at the start means that no object is outstanding |
| `StackAllocation.StackAllocator.Allocate` | include/rogue/core/memory/StackAllocator.hpp:42-58 | returns null exactly when the first aligned address plus the object size passes the buffer end; otherwise returns that address (aligned and at least the old head), moves the head to the object's end and records the object with the old head as its root; markers and the destruction log are unchanged |
| `StackAllocation.StackAllocator.AddContextToStack` | include/rogue/core/memory/StackAllocator.hpp:115-117 | pushes exactly one record for the object, with its root |
| `StackAllocation.StackAllocator.DeallocateAll` | include/rogue/core/memory/StackAllocator.hpp:60-68 | every outstanding object is destroyed, last allocated first; the head returns to the buffer start and no record or marker remains |
| `StackAllocation.StackAllocator.DestroyRecords` | include/rogue/core/memory/StackAllocator.hpp:62-65 | the loop empties the record stack and destroys the objects from the top down |
| `StackAllocation.StackAllocator.PushMarker` | include/rogue/core/memory/StackAllocator.hpp:70 | the current head is pushed as a marker; records and head are unchanged |
| `StackAllocation.StackAllocator.PopMarker` | include/rogue/core/memory/StackAllocator.hpp:72-83 | as written, valid only while the marker is not the buffer start; the top marker is popped, the head returns to it, and exactly the objects allocated since then are destroyed, newest first |
| `StackAllocation.StackAllocator.UnwindPeekingFirst` | include/rogue/core/memory/StackAllocator.hpp:76-82 | the as-written loop, which peeks before every test, stops with the head at the marker and the records cut to the marker's count |
| `StackAllocation.StackAllocator.PopMarkerCorrected` | include/rogue/core/memory/StackAllocator.hpp:72-83 | the same rollback for every marker, including the buffer start |
| `StackAllocation.StackAllocator.Unwind` | include/rogue/core/memory/StackAllocator.hpp:77-82 | popping records until the head meets the marker stops at the marker's record count and destroys the records above it, newest first |
| `StackAllocation.StackAllocator.GetObjectCount` | include/rogue/core/memory/StackAllocator.hpp:85 | the number of outstanding records |
| `StackAllocation.StackAllocator.CountZeroIffHeadAtStart` | include/rogue/core/memory/StackAllocator.hpp:85 | the object count is zero exactly when the head is at the buffer start |
| `StackAllocation.ArenaWithTwo` | test/source/core/memory/StackAllocator.cpp:11-20 | in a default 1024-byte arena, two 4-byte objects are allocated back to back; the counts read 0, 1, 2 |
| `StackAllocation.SimpleAllocation` | test/source/core/memory/StackAllocator.cpp:11-26 | three allocations give counts 1, 2, 3; DeallocateAll brings the count to 0 and destroys objects 3, 2, 1 |
| `StackAllocation.MarkerRollback` | test/source/core/memory/StackAllocator.cpp:28-43 | two objects, a marker and a third object; popping the marker brings the count from 3 back to 2 and destroys only the third |
| `StackAllocation.ReuseAfterRollback` | include/rogue/core/memory/StackAllocator.hpp:72-83 | after a rollback, the next allocation of the same type lands at the rolled-back object's address |
| `StackAllocation.FirstMarkerRollback` | include/rogue/core/memory/StackAllocator.hpp:75-81 | a marker pushed on a fresh arena is the buffer start, which the as-written PopMarker does not allow; the corrected rollback empties the arena |

## Left out

- `MathUtil.NextMultiple`: integers are unbounded. The `size_t` wrap-around of `value + multipleOf - 1` near the top of the address space is not modelled.
- Widths: `uint32_t` and `size_t` counts are modelled as `nat`. The same goes for the `int` loop index of the pool constructor, which would overflow when `amount` exceeds `INT_MAX`. `m_Last = m_First + (amount - 1)` for an empty pool is not modelled either.
- Memory: raw memory and pointers are abstracted. Pool slots are indices 0..size-1, and arena addresses are naturals from the buffer start `data`. That start is a constructor parameter because `new byte[size]` can return any address. Placement `new`, `malloc`, `delete` and the destructors are not modelled as memory operations. The pool keeps the constructed objects in a ghost map. The arena logs each destroyed object's id in the ghost `destroyed`.
- `StackAllocation.ObjectContext`: it also records the object's size. The source record holds only the object pointer, the root and the destructor, and this extra field expresses where each object ends.
- `StackAllocation.StackAllocator.Allocate`: the alignment and size are the arguments `alignof(T)` and `sizeof(T)`. The constructor arguments become an object id.
- `StackAllocation.StackAllocator.Allocate`: requires room on the record stack whenever the object fits. In the source, a full record stack is a fatal assertion inside `Push` after the head has already moved.
- Collaborators: `ROGUE_ASSERT` together with its logger and debug break, and thread safety. A failed fatal assertion is a precondition; logging is not modelled.
- Types.Stack.Clear is not declared in `Stack.hpp`, although `DeallocateAll` calls it on the marker stack. It is modelled as resetting the count.
- The tests call `PopAll`, which the allocator does not declare. The scenarios use `DeallocateAll`, which is what it evidently names.
- Copy and move operations are deleted in the source and have no counterpart here.
- `PoolAllocation.PoolAllocator.Deallocate`: keeps `Sound()` only for a live slot. The source's range check does not reject a double free, so a slot freed twice can then be handed out twice (`DoubleFreeHazard`).
- The two arena unwinding loops are separate methods (`UnwindPeekingFirst`, `Unwind`), as is the loop of `DeallocateAll` (`DestroyRecords`). Their callers run them in place, so the behaviour is the same.

## Findings

| source | as written | input that shows it | evidently intended | confidence | as-written member | corrected member |
|---|---|---|---|---|---|---|
| include/rogue/core/memory/StackAllocator.hpp:76-81 | `PopMarker` peeks at the record stack before the loop test, and again after every pop, including the pop that brings the head back to the marker | on a fresh allocator, `PushMarker`, then one `Allocate`, then `PopMarker`: the marker is the buffer start, so the loop pops the only record and then peeks at an empty stack, which is a fatal assertion (`StackAllocation.FirstMarkerRollback` shows that the as-written precondition is false there) | read the top record only while the head is still above the marker, so that a marker at the buffer start rolls back to an empty arena | not executed | `StackAllocation.StackAllocator.PopMarker` | `StackAllocation.StackAllocator.PopMarkerCorrected` |
