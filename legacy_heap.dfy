/**
 * The earlier revision of the heap box kept in src/heap/mod.rs: a numeric
 * identifier chosen by the caller, an allocation function passed to the
 * constructor (`alloc_zeroed`), a panic on a null allocation, and a
 * size-only check on access.
 */
module LegacyHeap {
  import opened Mem
  import opened Uniboxed
  import opened Alloc

  /**
   * The layout `new_with_alloc` passes to the allocation function as
   * written: `Layout::from_size_align(size, align).unwrap()` for every type,
   * which is a defined request only for types of non-zero size.
   */
  function AllocRequestAsWritten(t: TypeDesc): (l: Layout)
    requires t.WellFormed()
    ensures ValidRequest(l) <==> t.size > 0
    ensures l == LayoutOf(t)
  {
    FromSizeAlignOfType(t);
    FromSizeAlign(t.size, t.align).value
  }

  /**
   * Boxing `()` as written asks `alloc_zeroed` for zero bytes: the value is
   * a valid one, but it cannot meet the precondition `NewWithAllocAsWritten`
   * takes from `alloc_zeroed`.
   */
  lemma ZeroSizedAllocAsWritten()
    ensures Value(UNIT, []).Valid()
    ensures !ValidRequest(AllocRequestAsWritten(Value(UNIT, []).ty))
  {
  }

  class UniBox {
    const buffer: Ptr
    const layout: Layout
    const id: Usize
    const len: Usize
    /** The `autodrop` callback, represented by the type it was specialised to. */
    const autodrop: TypeDesc

    /** The byte images the callback has dropped, in order. */
    ghost var released: seq<seq<byte>>
    ghost var dropped: bool

    ghost predicate Valid(heap: Allocator)
      reads this, heap
    {
      && heap.Valid()
      && !dropped
      && autodrop.WellFormed()
      && layout == LayoutOf(autodrop)
      && len == autodrop.size
      && (layout.size > 0 ==> buffer in heap.blocks && heap.layouts[buffer] == layout)
    }

    /** The state `new_with_alloc(instance, id, ..)` leaves behind, apart from the heap. */
    ghost predicate Stores(instance: Value, id: Usize)
      reads this
    {
      && layout == LayoutOf(instance.ty)
      && len == instance.ty.size
      && this.id == id
      && autodrop == instance.ty
      && released == []
    }

    /** The bytes the box holds: its block, or nothing for a zero-sized type. */
    function Image(heap: Allocator): (r: seq<byte>)
      reads this, heap
      requires Valid(heap)
      ensures |r| == len
    {
      if layout.size == 0 then [] else heap.blocks[buffer]
    }

    constructor Make(buffer: Ptr, layout: Layout, instance: Value, id: Usize)
      requires instance.Valid() && layout == LayoutOf(instance.ty)
      ensures Stores(instance, id) && this.buffer == buffer && !dropped
    {
      this.buffer := buffer;
      this.layout := layout;
      this.id := id;
      len := instance.ty.size;
      autodrop := instance.ty;
      released := [];
      dropped := false;
    }

    /**
     * `new_with_alloc(instance, id, alloc_zeroed)` as written: builds the
     * layout from the value's size and alignment (the `unwrap` never
     * fails), allocates it whatever the size, panics on a null block, and
     * otherwise copies the value's bytes in. `alloc_zeroed` is only defined
     * for a layout of non-zero size, which is this method's precondition.
     */
    static method NewWithAllocAsWritten(heap: Allocator, instance: Value, id: Usize, outOfMemory: bool)
      returns (r: Outcome<UniBox>)
      requires heap.Valid() && instance.Valid()
      requires ValidRequest(AllocRequestAsWritten(instance.ty))
      modifies heap
      ensures heap.Valid()
      ensures r.Panicked? <==> outOfMemory
      ensures r.Panicked? ==> heap.blocks == old(heap.blocks) && heap.layouts == old(heap.layouts)
      ensures r.Returned? ==> fresh(r.value) && r.value.Valid(heap) && r.value.Stores(instance, id)
      ensures r.Returned? ==> r.value.Image(heap) == instance.bytes
      ensures r.Returned? ==>
        && r.value.buffer !in old(heap.blocks)
        && heap.blocks == old(heap.blocks)[r.value.buffer := instance.bytes]
        && heap.layouts == old(heap.layouts)[r.value.buffer := LayoutOf(instance.ty)]
    {
      var layout := AllocRequestAsWritten(instance.ty);
      var buffer := heap.AllocZeroed(layout, outOfMemory);
      if buffer == NULL {
        return Panicked;
      }
      heap.Write(buffer, instance.bytes);
      var b := new UniBox.Make(buffer, layout, instance, id);
      return Returned(b);
    }

    /**
     * `new_with_alloc(instance, id, alloc_zeroed)`, corrected: as written
     * for a value of non-zero size; a zero-sized value gets a dangling,
     * never allocated address instead of a zero-byte allocation.
     */
    static method NewWithAlloc(heap: Allocator, instance: Value, id: Usize, outOfMemory: bool)
      returns (r: Outcome<UniBox>)
      requires heap.Valid() && instance.Valid()
      modifies heap
      ensures heap.Valid()
      ensures r.Panicked? <==> instance.ty.size > 0 && outOfMemory
      ensures r.Panicked? ==> heap.blocks == old(heap.blocks) && heap.layouts == old(heap.layouts)
      ensures r.Returned? ==> fresh(r.value) && r.value.Valid(heap) && r.value.Stores(instance, id)
      ensures r.Returned? ==> r.value.Image(heap) == instance.bytes
      ensures r.Returned? && instance.ty.size > 0 ==>
        && r.value.buffer !in old(heap.blocks)
        && heap.blocks == old(heap.blocks)[r.value.buffer := instance.bytes]
        && heap.layouts == old(heap.layouts)[r.value.buffer := LayoutOf(instance.ty)]
      ensures r.Returned? && instance.ty.size == 0 ==>
        heap.blocks == old(heap.blocks) && heap.layouts == old(heap.layouts)
    {
      if instance.ty.size > 0 {
        r := NewWithAllocAsWritten(heap, instance, id, outOfMemory);
        return;
      }
      var layout := AllocRequestAsWritten(instance.ty);
      // `NonNull::dangling()`: the alignment itself, non-null and aligned
      var b := new UniBox.Make(layout.align, layout, instance, id);
      return Returned(b);
    }

    /** `new_with_id(instance, id)`: never `Err`; it panics where `new_with_alloc` does. */
    static method NewWithId(heap: Allocator, instance: Value, id: Usize, outOfMemory: bool)
      returns (r: Outcome<Result<UniBox>>)
      requires heap.Valid() && instance.Valid()
      modifies heap
      ensures heap.Valid()
      ensures r.Panicked? <==> instance.ty.size > 0 && outOfMemory
      ensures r.Returned? ==> r.value.Ok?
      ensures r.Returned? ==> fresh(r.value.value) && r.value.value.Valid(heap)
      ensures r.Returned? ==> r.value.value.Stores(instance, id) && r.value.value.Image(heap) == instance.bytes
      ensures r.Panicked? ==> heap.blocks == old(heap.blocks) && heap.layouts == old(heap.layouts)
      ensures r.Returned? && instance.ty.size > 0 ==>
        && r.value.value.buffer !in old(heap.blocks)
        && heap.blocks == old(heap.blocks)[r.value.value.buffer := instance.bytes]
        && heap.layouts == old(heap.layouts)[r.value.value.buffer := LayoutOf(instance.ty)]
      ensures r.Returned? && instance.ty.size == 0 ==>
        heap.blocks == old(heap.blocks) && heap.layouts == old(heap.layouts)
    {
      var b := NewWithAlloc(heap, instance, id, outOfMemory);
      if b.Panicked? {
        return Panicked;
      }
      return Returned(Ok(b.value));
    }

    /** The interface's default `new(instance)`: identifier 0. */
    static method New(heap: Allocator, instance: Value, outOfMemory: bool)
      returns (r: Outcome<Result<UniBox>>)
      requires heap.Valid() && instance.Valid()
      modifies heap
      ensures heap.Valid()
      ensures r.Panicked? <==> instance.ty.size > 0 && outOfMemory
      ensures r.Returned? ==> r.value.Ok? && fresh(r.value.value) && r.value.value.Valid(heap)
      ensures r.Returned? ==> r.value.value.Stores(instance, 0) && r.value.value.Id() == 0
      ensures r.Returned? ==> r.value.value.Image(heap) == instance.bytes
      ensures r.Panicked? ==> heap.blocks == old(heap.blocks) && heap.layouts == old(heap.layouts)
      ensures r.Returned? && instance.ty.size > 0 ==>
        && r.value.value.buffer !in old(heap.blocks)
        && heap.blocks == old(heap.blocks)[r.value.value.buffer := instance.bytes]
        && heap.layouts == old(heap.layouts)[r.value.value.buffer := LayoutOf(instance.ty)]
      ensures r.Returned? && instance.ty.size == 0 ==>
        heap.blocks == old(heap.blocks) && heap.layouts == old(heap.layouts)
    {
      r := NewWithId(heap, instance, DEFAULT_ID, outOfMemory);
    }

    /**
     * The private `as_owned::<T>()`: panics exactly when the size of `T` is
     * not the stored one; otherwise reads the value out of the block.
     * Nothing changes.
     */
    method AsOwned(heap: Allocator, t: TypeDesc) returns (r: Outcome<seq<byte>>)
      requires Valid(heap)
      ensures r.Panicked? <==> t.size != autodrop.size
      ensures r.Returned? ==> |r.value| == t.size && r.value == Image(heap)
    {
      if t.size != len {
        return Panicked;
      }
      return Returned(Image(heap));
    }

    /**
     * `as_ref::<T>()`: panics exactly when the size of `T` is not the stored
     * one; otherwise a view of the block. Nothing changes.
     */
    method AsRef(heap: Allocator, t: TypeDesc) returns (r: Outcome<seq<byte>>)
      requires Valid(heap)
      ensures r.Panicked? <==> t.size != autodrop.size
      ensures r.Returned? ==> |r.value| == t.size && r.value == Image(heap)
    {
      if t.size != Len() {
        return Panicked;
      }
      return Returned(Image(heap));
    }

    /** `len()`. */
    function Len(): Usize
    {
      len
    }

    /** `id()`. */
    function Id(): Usize
    {
      id
    }

    /** `free()`: deallocates the block with the layout recorded at construction. */
    method Free(heap: Allocator)
      requires Valid(heap)
      modifies heap
      ensures heap.Valid()
      ensures layout.size > 0 ==>
        heap.blocks == old(heap.blocks) - {buffer} && heap.layouts == old(heap.layouts) - {buffer}
      ensures layout.size == 0 ==>
        heap.blocks == old(heap.blocks) && heap.layouts == old(heap.layouts)
    {
      if layout.size > 0 {
        heap.Dealloc(buffer, layout);
      }
    }

    /**
     * `drop`: the bound callback takes the value out with `as_owned::<T>()`
     * (whose check passes) and drops it, then `free` releases the block.
     */
    method Drop(heap: Allocator)
      requires Valid(heap)
      modifies this, heap
      ensures heap.Valid() && dropped
      ensures released == old(released) + [old(Image(heap))]
      ensures layout.size > 0 ==>
        heap.blocks == old(heap.blocks) - {buffer} && heap.layouts == old(heap.layouts) - {buffer}
      ensures layout.size == 0 ==>
        heap.blocks == old(heap.blocks) && heap.layouts == old(heap.layouts)
    {
      var owned := AsOwned(heap, autodrop);
      released := released + [owned.value];
      Free(heap);
      dropped := true;
    }
  }

  /** `len()` and `id()` of a box built by `new_with_id(instance, id)` report the value's size and `id`. */
  lemma AccessorsOfNew(heap: Allocator, b: UniBox, instance: Value, id: Usize)
    requires b.Valid(heap) && b.Stores(instance, id)
    ensures b.Len() == instance.ty.size
    ensures b.Id() == id
  {
  }
}
