# unibox in Dafny

A model of the `unibox` crate: type-erased containers ("uniboxes") that keep
the raw byte image of a value of any type, remember enough about that type
to check later typed accesses, and run a destructor callback bound to the
original type when they are dropped.

A Rust type `T` is abstracted as `Mem.TypeDesc(name, size, align)`, standing
for `type_name::<T>()`, `size_of::<T>()` and `align_of::<T>()`. A value is
abstracted as `Mem.Value(ty, bytes)`, its byte image. A typed reference
becomes "the bytes the reference covers". A panic becomes
`Mem.Outcome.Panicked`, and Rust's `Result<Self, ()>` becomes
`Uniboxed.Result`.

Modules, one per source file:

- `Buffer` (src/stack/buffer.rs): the `[u8; N]` buffers for N = 32, 64, 128
  and 256, as `array<byte>`. The prefix copies are loops that work in place.
  They are proved against `CopyPrefix`.
- `NaryBox` (src/stack/narybox.rs): the inline box `UniBoxN`, as a class.
  - `len`, `alig`, `id` and the buffer reference are `const`, so nothing can
    change them after construction.
  - The `autodrop` field is represented by the `TypeDesc` its closure was
    specialised to.
  - A ghost `released` log records every run of the callback, so "runs
    exactly once" can be stated.
- `StaticBox` (src/stack/staticbox.rs): `UniBox32`, `UniBox64`, `UniBox128`
  and `UniBox256`. These four impls differ only in the buffer type, so one
  class `StaticUniBox` stands for all four. The wrapped box's `capacity`
  says which one it is.
- `Uniboxed` (src/uniboxed.rs): the interface's `Result` type and the
  identifier 0 that the default `new` passes to `new_with_id`. The
  interface is not modelled as a type of its own; each box class has a
  `New` that calls its `NewWithId` with `DEFAULT_ID`.
- `Alloc`: `Layout`, `Layout::from_size_align`, and an abstract global
  allocator.
  - It holds each live block's contents and, as a ghost map, the layout the
    block was allocated with.
  - `Dealloc` demands that very layout.
  - Whether an allocation fails is a parameter.
- `DynamicBox` (src/heap/dynamicbox.rs): the heap box `UniBox`, whose
  identity is the stored type's name.
- `LegacyStack` (src/stack/mod.rs) and `LegacyHeap` (src/heap/mod.rs): the
  earlier revisions still in the tree. They check only the size, and they
  use numeric identifiers.
- `RoundTrip` (src/tests.rs): the tests' round trips through the inline
  boxes of every capacity and through the heap box.

Where the code and the crate's own description differ, the model follows
the code. The one place where the model departs from the code is the
correction of a "## Findings" row, and it is marked below:

- A construction that fails does not give the value back. `new` takes the
  value by move, so returning `Err(())` drops it. `instanceDropped` records
  this.
- `src/heap/dynamicbox.rs` implements `new` and not `new_with_id`. Its
  `id()` returns a `&'static str`, where the interface in src/uniboxed.rs
  declares `usize`. The model keeps both as written: `DynamicBox.UniBox.Id`
  returns a `string`.
- For a zero-sized type, the heap boxes' `new` (src/heap/dynamicbox.rs:38-39)
  and `new_with_alloc` (src/heap/mod.rs:25-28) call the allocator with a
  zero-size layout, which the allocator does not define. `DynamicBox.UniBox.New`
  and `LegacyHeap.UniBox.NewWithAlloc` are the corrected versions from
  "## Findings": a zero-sized value gets a dangling, aligned address and no
  block, so its construction never fails, and drop deallocates nothing.
  `DynamicBox.UniBox.NewAsWritten` and `LegacyHeap.UniBox.NewWithAllocAsWritten`
  keep them as written, for the types where they are defined.
- `check_type`, which `src/heap/dynamicbox.rs` calls, is not defined in any
  of the crate's files. It is modelled as "the stored type name is the
  requested type's name".

## Model

| member | source | states |
|---|---|---|
| `Buffer.Init` | src/stack/buffer.rs:16-18 | `init()` gives a new buffer of exactly N zero bytes |
| `Buffer.CopyPrefix` | src/stack/buffer.rs:24-30 | a prefix copy keeps the length, takes bytes `0..len` from the source and keeps the rest of the destination |
| `Buffer.CopyFromByte` | src/stack/buffer.rs:24-26 | panics, with the buffer unchanged, exactly when `len > N` or the slice is not `len` long; otherwise bytes `0..len` become the slice and `len..N` are unchanged |
| `Buffer.CopyFromType` | src/stack/buffer.rs:28-30 | panics exactly when `len > N`; otherwise bytes `0..len` become the source buffer's, the rest are unchanged, and the source buffer is not modified |
| `Buffer.CopyPrefixIdempotent` | src/stack/buffer.rs:28-30 | copying the same prefix of the same source twice gives the same buffer as copying it once |
| `Buffer.CopyIntoZeros` | src/stack/buffer.rs:16-26 | `init()` then a copy of `len` bytes gives the bytes followed by `N - len` zeros |
| `Buffer.CopyPrefixReadBack` | src/stack/buffer.rs:24-30 | after a copy, the first `len` bytes read back as the source's, and the others as before |
| `NaryBox.UniBoxN.New` | src/stack/narybox.rs:26-54 | `Err` exactly when `size(T)` exceeds the capacity; an `Err` drops the value and a success forgets it; on success the buffer is the value's bytes then zeros, `len = size(T)`, `alig = align(T)`, `id` is the argument, the callback is bound to `T`, and nothing has been released |
| `NaryBox.UniBoxN.AsRef` | src/stack/narybox.rs:59-62 | panics exactly when the size or the alignment of `T` differs from the stored ones; otherwise returns the first `len` bytes of the buffer, which is `size(T)` bytes; the box is not changed |
| `NaryBox.UniBoxN.AsMutRef` | src/stack/narybox.rs:67-70 | same check as `as_ref`; a store through the reference changes only the first `len` bytes of `data` and never `len`, `alig` or `id` |
| `NaryBox.UniBoxN.Len` | src/stack/narybox.rs:73-75 | `len()` is the stored type's size and never exceeds the capacity |
| `NaryBox.AsOwnedOfStored` | src/stack/narybox.rs:82-84 | the private, unchecked `as_owned::<T>()` gives back exactly the value whose image starts the buffer, as `new` leaves it (followed by zeros) and as a store through `as_mut_ref` leaves it (followed by the old tail) |
| `NaryBox.UniBoxN.Drop` | src/stack/narybox.rs:96-100 | drop runs the bound callback exactly once, on the buffer's current first `len` bytes |
| `NaryBox.IntegrityOfNew` | src/stack/narybox.rs:86-93 | `integrity_checks::<T>()` (the predicate `IntegrityOk`) of a box built by `new` passes exactly for the types with the stored size and alignment, and so always for the stored type |
| `NaryBox.AccessorsOfNew` | src/stack/narybox.rs:73-80 | `len()` and `id()` of a box built by `new(instance, id)` are `size(T)` and that `id` |
| `NaryBox.Lifecycle` | src/stack/narybox.rs:26-100 | for every value that fits: `as_ref` gives back what `new` stored, a value stored through `as_mut_ref` reads back, and drop destroys that value once |
| `StaticBox.StaticUniBox.NewWithId` | src/stack/staticbox.rs:10-16 | `Err` exactly when the wrapped `UniBoxN::new` is `Err`; otherwise the wrapper holds that new box unchanged |
| `StaticBox.StaticUniBox.New` | src/uniboxed.rs:4-6 | the default `new` is `new_with_id(instance, 0)`: same success condition and state, and `id() == 0` |
| `StaticBox.StaticUniBox.AsRef` | src/stack/staticbox.rs:18-20 | panics under exactly the wrapped box's size or alignment mismatch, and otherwise returns the wrapped box's view |
| `StaticBox.StaticUniBox.AsMutRef` | src/stack/staticbox.rs:22-24 | forwards the check and the store to the wrapped box |
| `StaticBox.StaticUniBox.Len` | src/stack/staticbox.rs:26-28 | `len()` is the wrapped box's stored size, within the capacity |
| `StaticBox.StaticUniBox.Drop` | src/stack/staticbox.rs:5-7 | dropping a wrapper drops the wrapped box, which runs its callback once |
| `StaticBox.AccessorsOfNewWithId` | src/stack/staticbox.rs:26-32 | `len()` and `id()` of a wrapper built by `new_with_id(instance, id)` are `size(T)` and that `id` |
| `Alloc.FromSizeAlignOfType` | src/heap/mod.rs:25-27 | `Layout::from_size_align(size_of::<T>(), align_of::<T>())` never fails, so its `unwrap` never panics, and it equals `Layout::new::<T>()` |
| `Alloc.LayoutOfType` | src/heap/dynamicbox.rs:38 | `Layout::new::<T>()` needs no padding, because a type's size is already a multiple of its alignment (`RoundUp(size, align) == size`); so it keeps `Layout`'s invariant for every type: a power-of-two alignment and a size, rounded up to it, within `isize::MAX` |
| `Alloc.FromSizeAlign` | src/heap/mod.rs:25-27 | `Layout::from_size_align(size, align)` succeeds exactly when `align` is a power of two and `size` rounded up to the next multiple of `align` (`RoundUp`) is at most `isize::MAX`, and then gives `Layout { size, align }`; its test is written as `size <= isize::MAX - (align - 1)`, and `RoundUpWithin` proves the two tests agree |
| `Alloc.RoundUpWithin` | src/heap/mod.rs:25-27 | for a power-of-two `usize` alignment, `size` rounded up to `align` is at most `isize::MAX` exactly when `size <= isize::MAX - (align - 1)`: the alignment divides `isize::MAX + 1` |
| `Alloc.RoundUpOfMultiple` | src/heap/dynamicbox.rs:38 | a size that is a multiple of the alignment is unchanged by rounding up |
| `Alloc.Allocator.Alloc` | src/heap/dynamicbox.rs:38-42 | `alloc` of a non-zero layout returns null, with nothing changed, or a new block of the layout's size recorded with that layout; other blocks are untouched |
| `Alloc.Allocator.AllocZeroed` | src/heap/mod.rs:69-71 | as `alloc`, and the new block is all zeros |
| `Alloc.Allocator.Write` | src/heap/dynamicbox.rs:43-46 | copying a value into a live block replaces that block's contents only |
| `Alloc.Allocator.Dealloc` | src/heap/dynamicbox.rs:81-83 | `dealloc` is only defined for a live block and the layout it was allocated with, and it removes just that block |
| `DynamicBox.UniBox.NewAsWritten` | src/heap/dynamicbox.rs:34-57 | `new` as written: it passes `Layout::new::<T>()` to `alloc` for every `T`, so it is defined only for `size(T) > 0`; it returns `Err` exactly when the allocation returns null, with the heap unchanged and the value dropped; on success the block is new, holds exactly the value's bytes and is recorded with `Layout::new::<T>()`, and other blocks are untouched |
| `DynamicBox.ZeroSizedAllocAsWritten` | src/heap/dynamicbox.rs:38-39 | `()` is a valid value, and boxing it as written asks `alloc` for a zero-size block, which `NewAsWritten`'s precondition excludes |
| `DynamicBox.UniBox.New` | src/heap/dynamicbox.rs:34-57 | the corrected `new` from "## Findings": for `size(T) > 0` it is `NewAsWritten`, so `Err` exactly when the allocation returns null, with the heap unchanged and the value dropped, and otherwise a new block holding exactly the value's bytes, recorded with `Layout::new::<T>()`, with other blocks untouched; a zero-sized `T` gets a dangling address and no block, never fails and leaves the heap unchanged; there is no capacity failure; `len = size(T)`; `id = type_name(T)` |
| `DynamicBox.UniBox.AsRef` | src/heap/dynamicbox.rs:59-62 | for a caller who requests the stored type whenever the names agree (the unsafe function's contract): panics exactly when `check_type::<T>()` fails; otherwise returns the block's bytes, exactly `size(T)` of them; nothing changes |
| `DynamicBox.UniBox.AsMutRef` | src/heap/dynamicbox.rs:64-67 | same check; a store through the reference changes only the box's own block, and no layout |
| `DynamicBox.AsOwnedOfStored` | src/heap/dynamicbox.rs:22-24 | the private, unchecked `as_owned::<T>()` gives back exactly the value of the stored type whose image the block holds, as `new` and a store through `as_mut_ref` leave it |
| `DynamicBox.UniBox.Drop` | src/heap/dynamicbox.rs:78-85 | drop first runs the callback once, on the block's contents before release, then, for `size(T) > 0`, deallocates with the layout recorded at construction, and only that block goes; a zero-sized `T` has no block, so nothing is deallocated and the heap is unchanged (the corrected version from "## Findings") |
| `DynamicBox.Lifecycle` | src/heap/dynamicbox.rs:34-85 | for every value: `as_ref` gives back what `new` stored, a value stored through `as_mut_ref` reads back, drop destroys that value once, and the heap ends as it began |
| `DynamicBox.AccessorsOfNew` | src/heap/dynamicbox.rs:69-75 | for a box built by `new(instance)`: `len()` is `size(T)` and `id()` is `type_name::<T>()`, a string and not the interface's `usize`; `check_type::<T>()`, which `integrity_checks` calls at lines 26-30, holds exactly when `T` has the stored type's name |
| `LegacyStack.BufferLen` | src/stack/mod.rs:53-55 | the literal `Buffer::len()` of each array type is that array's length |
| `LegacyStack.UniBoxN.New` | src/stack/mod.rs:128-155 | `Err` exactly when `size(T) > S::len()`, and then the value is dropped; on success the buffer is the value's bytes then zeros, `len = size(T)`, and `id` is stored |
| `LegacyStack.UniBoxN.AsRef` | src/stack/mod.rs:160-168 | panics exactly when `size(T) != len`, with no alignment check; otherwise returns the first `len` bytes |
| `LegacyStack.UniBoxN.AsOwned` | src/stack/mod.rs:173-183 | panics exactly when `size(T) != len`; otherwise returns the first `len` bytes, copied through a fresh zeroed buffer; the box is not changed, so its callback stays armed |
| `LegacyStack.UniBoxN.TakeOwned` | src/stack/mod.rs:173-183 | the corrected `as_owned`: the same check and result, and on success the callback is disarmed |
| `LegacyStack.UniBoxN.Len` | src/stack/mod.rs:186-188 | `len()` is the stored type's size, within `S::len()` |
| `LegacyStack.UniBoxN.Drop` | src/stack/mod.rs:196-201 | drop runs the callback once, through the checked `as_owned`, on the current first `len` bytes; it drops nothing if the value was taken with `TakeOwned` |
| `LegacyStack.AccessorsOfNew` | src/stack/mod.rs:186-193 | `len()` and `id()` of a box built by `new(instance, id)` are `size(T)` and that `id` |
| `LegacyStack.OwnedThenDropAsWritten` | src/stack/mod.rs:172-201 | `as_owned` followed by drop, as written, destroys the same stored value twice |
| `LegacyStack.TakeThenDrop` | src/stack/mod.rs:172-201 | `TakeOwned` followed by drop destroys the stored value exactly once |
| `LegacyStack.StaticUniBox.NewWithId` | src/stack/mod.rs:209-215 | `UniBox64/128/256::new_with_id` is `Err` exactly when the wrapped `new` is; otherwise it holds that box unchanged |
| `LegacyStack.StaticUniBox.New` | src/stack/mod.rs:13-15 | this revision's default `new` uses identifier 0 |
| `LegacyStack.StaticUniBox.AsRef` | src/stack/mod.rs:217-219 | forwards the size-only check and the view of the wrapped box |
| `LegacyStack.StaticUniBox.Len` | src/stack/mod.rs:221-223 | `len()` is the wrapped box's stored size, within the capacity |
| `LegacyStack.StaticUniBox.Drop` | src/stack/mod.rs:204-206 | dropping a wrapper drops the wrapped box |
| `LegacyStack.AccessorsOfNewWithId` | src/stack/mod.rs:221-227 | `len()` and `id()` of a wrapper built by `new_with_id(instance, id)` are `size(T)` and that `id` |
| `LegacyHeap.AllocRequestAsWritten` | src/heap/mod.rs:25-28 | the layout `new_with_alloc` passes to the allocation function is `Layout::new::<T>()` for every `T`, valid exactly when `size(T) > 0` |
| `LegacyHeap.ZeroSizedAllocAsWritten` | src/heap/mod.rs:25-28 | `()` is a valid value, and boxing it as written asks `alloc_zeroed` for a zero-size block, which `NewWithAllocAsWritten`'s precondition excludes |
| `LegacyHeap.UniBox.NewWithAllocAsWritten` | src/heap/mod.rs:21-44 | `new_with_alloc` as written: it passes the value's layout to `alloc_zeroed` for every `T`, so it is defined only for `size(T) > 0`; it panics exactly when the allocation returns null, with the heap unchanged; otherwise the block is new, holds exactly the value's bytes and is recorded with the layout `(size(T), align(T))`, and other blocks are untouched |
| `LegacyHeap.UniBox.NewWithAlloc` | src/heap/mod.rs:21-44 | the corrected `new_with_alloc` from "## Findings": for `size(T) > 0` it panics exactly on a null allocation, with the heap unchanged, and otherwise the block is new, holds exactly the value's bytes and is recorded with the layout `(size(T), align(T))`, with other blocks untouched; a zero-sized `T` gets a dangling address and no block, never panics and leaves the heap unchanged; `len = size(T)`; `id` is stored |
| `LegacyHeap.UniBox.NewWithId` | src/heap/mod.rs:67-73 | never returns `Err`: it panics where `new_with_alloc` does, with the heap unchanged, and otherwise returns `Ok` with the caller's `id` and a box whose image is the value's bytes; for `size(T) > 0` those bytes are in a new block recorded with the value's layout, and every other block is untouched; a zero-sized `T` has no block, the corrected version from "## Findings", and the heap is unchanged |
| `LegacyHeap.UniBox.New` | src/uniboxed.rs:4-6 | the default `new` is `new_with_id(instance, 0)`: the same panics, image and heap state (a new block for `size(T) > 0`; a zero-sized `T` has no block, the corrected version from "## Findings"), and `id() == 0` |
| `LegacyHeap.UniBox.AsOwned` | src/heap/mod.rs:46-52 | panics exactly when `size(T) != len`; otherwise returns the block's bytes; nothing changes |
| `LegacyHeap.UniBox.AsRef` | src/heap/mod.rs:95-101 | panics exactly when `size(T) != len`; otherwise returns the block's bytes; nothing changes |
| `LegacyHeap.UniBox.Free` | src/heap/mod.rs:56-60 | for `size(T) > 0`, `free` deallocates the box's block with the stored layout, and nothing else; a zero-sized `T` has no block, the corrected version from "## Findings", so nothing is deallocated |
| `LegacyHeap.UniBox.Drop` | src/heap/mod.rs:112-117 | drop runs the callback once, on the box's image, and then frees the block: for `size(T) > 0` that block alone goes; a zero-sized `T` has no block, the corrected version from "## Findings", so the heap is unchanged |
| `LegacyHeap.AccessorsOfNew` | src/heap/mod.rs:103-109 | `len()` and `id()` of a box built by `new_with_id(instance, id)` are `size(T)` and that `id` |
| `RoundTrip.Succession` | src/tests.rs:14-18 | byte `i` of the test array is `i as u8` |
| `RoundTrip.InitArray` | src/tests.rs:14-18 | `init_array` fills the array with that succession |
| `RoundTrip.CheckSuccession` | src/tests.rs:5-12 | `check_sucession` is true exactly when byte `i` is `i as u8` for every `i` |
| `RoundTrip.NewTestValue` | src/tests.rs:25-31 | `TestN::new()` is an N-byte, 1-aligned value holding the succession |
| `RoundTrip.TestStatic` | src/tests.rs:77-101 | for each capacity N, an N-byte test value fits the N-byte inline box exactly, reads back unchanged through `as_ref`, and passes the check |
| `RoundTrip.TestDynamic` | src/tests.rs:103-109 | for the 32, 64, 128 and 256-byte test values, the heap box reads the value back unchanged; `expect` panics only when the allocation fails; the heap ends as it began |

## Left out

- Raw pointer work is not modelled: `Buffer::ptr`, `mem::transmute`,
  `ptr::read` and `ptr::copy`. A typed reference is the run of bytes it
  covers, and a read is a copy of those bytes. Aliasing through references,
  and lifetimes, are not modelled.
- `AsMutRef` models `as_mut_ref` as the caller storing a whole new value of
  the type through the reference. A partial update of a field is the same
  as storing the updated whole value.
- `DynamicBox.UniBox.AsRef` and `DynamicBox.UniBox.AsMutRef` require that a
  type with the stored type's name is the stored type. `type_name` is not
  guaranteed to be unique, and `as_ref` and `as_mut_ref` are unsafe
  functions whose caller must request the stored type.
- `check_type` is not part of this model's sources. It is taken to compare
  type names.
- The real allocator is replaced by `Alloc.Allocator`. Block addresses are
  counters, not aligned addresses.
- `Alloc.Allocator.Alloc` leaves the new block's contents unspecified in its
  contract, as `alloc` does.
- The behaviour of `T`'s own destructor is left out. A callback run is one
  entry in the ghost `released` log.
- The `println!` calls in the `drop` implementations are left out.
- Unwinding is not modelled. When `new_with_alloc` panics on a null block,
  the model does not record that the value is dropped during unwinding.
- `usize` is taken to be 64 bits. Type sizes obey Rust's bound of
  `isize::MAX`, rounded to the alignment, and alignments are at most 2^29.
- `Buffer::len()` of src/stack/mod.rs is modelled as `LegacyStack.BufferLen`.
  The copy operations of that file are those of module `Buffer`, because
  their bodies are identical.
- src/lib.rs repeats the `Uniboxed` interface and is not modelled a second
  time.
- src/main.rs is a demo program and is not modelled.
- The rest of src/tests.rs is test scaffolding and is not modelled.
- Concurrency is not modelled. The crate has none.

## Findings

| source | as written | input that shows it | evidently intended | confidence | as-written member | corrected member |
|---|---|---|---|---|---|---|
| src/heap/dynamicbox.rs:38-39 | `new` calls `alloc(Layout::new::<T>())` for every `T` | `UniBox::new(())`: a zero-size layout, for which `GlobalAlloc::alloc` is undefined | a zero-sized value needs no block: use a dangling, aligned address and skip `dealloc`, as `Box` does | not executed; high | `DynamicBox.ZeroSizedAllocAsWritten` | `DynamicBox.UniBox.New` |
| src/heap/mod.rs:25-28 | `new_with_alloc` calls `alloc_zeroed` with the value's layout for every `T` | `new_with_id((), 0)`: a zero-size layout, for which `alloc_zeroed` is undefined | the same: no block for a zero-sized value | not executed; high | `LegacyHeap.ZeroSizedAllocAsWritten`, `LegacyHeap.UniBox.NewWithAllocAsWritten` | `LegacyHeap.UniBox.NewWithAlloc` |
| src/stack/mod.rs:173-183 | the public `as_owned` hands out an owned copy of the value and leaves the drop callback armed | `as_owned::<String>()` on a box holding a `String`, then the box going out of scope: drop runs the `String`'s destructor on the same image the caller owns, a double free | taking the value out disarms the callback, so the value is destroyed once | not executed; medium | `LegacyStack.OwnedThenDropAsWritten` | `LegacyStack.UniBoxN.TakeOwned` |
