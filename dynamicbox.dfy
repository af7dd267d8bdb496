/**
 * The heap box `UniBox` (src/heap/dynamicbox.rs): the byte image of a value
 * in a heap block of exactly the value's layout, with the layout, the
 * value's size, its type name as identity, and the destructor callback
 * bound to its type.
 */
module DynamicBox {
  import opened Mem
  import opened Uniboxed
  import opened Alloc

  /**
   * The layout the source's `new` passes to `alloc` for a value of type
   * `t`: `Layout::new::<T>()` whatever `T` is, so the request is a defined
   * one only for types of non-zero size.
   */
  function AllocRequestAsWritten(t: TypeDesc): Layout
  {
    LayoutOf(t)
  }

  /**
   * Boxing `()` as written asks the allocator for zero bytes: the value is
   * a valid one, but it cannot meet the precondition `NewAsWritten` takes
   * from `alloc`.
   */
  lemma ZeroSizedAllocAsWritten()
    ensures Value(UNIT, []).Valid()
    ensures !ValidRequest(AllocRequestAsWritten(Value(UNIT, []).ty))
  {
  }

  class UniBox {
    const buffer: Ptr
    const layout: Layout
    /** `type_name::<T>()` of the stored type. */
    const id: string
    const len: Usize
    /** The `autodrop` callback, represented by the type it was specialised to. */
    const autodrop: TypeDesc

    /** The byte images the callback has dropped, in order. */
    ghost var released: seq<seq<byte>>
    ghost var dropped: bool

    /**
     * The invariant of a live box: the recorded layout is the stored type's,
     * and (for a type of non-zero size) the block is live in `heap` and was
     * allocated with exactly that layout.
     */
    ghost predicate Valid(heap: Allocator)
      reads this, heap
    {
      && heap.Valid()
      && !dropped
      && autodrop.WellFormed()
      && layout == LayoutOf(autodrop)
      && len == autodrop.size
      && id == autodrop.name
      && (layout.size > 0 ==> buffer in heap.blocks && heap.layouts[buffer] == layout)
    }

    /** The state `new(instance)` leaves behind, apart from the heap. */
    ghost predicate Stores(instance: Value)
      reads this
    {
      && layout == LayoutOf(instance.ty)
      && len == instance.ty.size
      && id == instance.ty.name
      && autodrop == instance.ty
      && released == []
    }

    /** The bytes the box holds: its block, or nothing for a zero-sized type. */
    function Image(heap: Allocator): (r: seq<byte>)
      reads this, heap
      requires Valid(heap)
      ensures |r| == len
    {
      if layout.size == 0 then [] else heap.blocks[buffer]
    }

    constructor Make(buffer: Ptr, instance: Value)
      requires instance.Valid()
      ensures Stores(instance) && this.buffer == buffer && !dropped
    {
      this.buffer := buffer;
      layout := LayoutOf(instance.ty);
      id := instance.ty.name;
      len := instance.ty.size;
      autodrop := instance.ty;
      released := [];
      dropped := false;
    }

    /**
     * `new(instance)` as written: allocates `Layout::new::<T>()` whatever
     * `T` is, returns `Err` (dropping `instance`) on a null block, and
     * otherwise copies the value's bytes in. `alloc` is only defined for a
     * layout of non-zero size, which is this method's precondition.
     */
    static method NewAsWritten(heap: Allocator, instance: Value, outOfMemory: bool)
      returns (r: Result<UniBox>, ghost instanceDropped: bool)
      requires heap.Valid() && instance.Valid()
      requires ValidRequest(AllocRequestAsWritten(instance.ty))
      modifies heap
      ensures heap.Valid()
      ensures r.Err? <==> outOfMemory
      ensures instanceDropped <==> r.Err?
      ensures r.Err? ==> heap.blocks == old(heap.blocks) && heap.layouts == old(heap.layouts)
      ensures r.Ok? ==> fresh(r.value) && r.value.Valid(heap) && r.value.Stores(instance)
      ensures r.Ok? ==> r.value.Image(heap) == instance.bytes
      ensures r.Ok? ==>
        && r.value.buffer !in old(heap.blocks)
        && heap.blocks == old(heap.blocks)[r.value.buffer := instance.bytes]
        && heap.layouts == old(heap.layouts)[r.value.buffer := LayoutOf(instance.ty)]
    {
      var layout := AllocRequestAsWritten(instance.ty);
      var buffer := heap.Alloc(layout, outOfMemory);
      if buffer == NULL {
        return Err, true;
      }
      heap.Write(buffer, instance.bytes);
      var b := new UniBox.Make(buffer, instance);
      return Ok(b), false;
    }

    /**
     * The corrected `new(instance)`: as written for a type of non-zero size;
     * a zero-sized value gets a dangling, never allocated address instead of
     * a block, so it never fails. The only failure is a null allocation,
     * which returns `Err` and drops `instance`; there is no capacity limit.
     */
    static method New(heap: Allocator, instance: Value, outOfMemory: bool)
      returns (r: Result<UniBox>, ghost instanceDropped: bool)
      requires heap.Valid() && instance.Valid()
      modifies heap
      ensures heap.Valid()
      ensures r.Err? <==> instance.ty.size > 0 && outOfMemory
      ensures instanceDropped <==> r.Err?
      ensures r.Err? ==> heap.blocks == old(heap.blocks) && heap.layouts == old(heap.layouts)
      ensures r.Ok? ==> fresh(r.value) && r.value.Valid(heap) && r.value.Stores(instance)
      ensures r.Ok? ==> r.value.Len() == instance.ty.size && r.value.Id() == instance.ty.name
      ensures r.Ok? ==> r.value.Image(heap) == instance.bytes
      ensures r.Ok? && instance.ty.size > 0 ==>
        && r.value.buffer !in old(heap.blocks)
        && heap.blocks == old(heap.blocks)[r.value.buffer := instance.bytes]
        && heap.layouts == old(heap.layouts)[r.value.buffer := LayoutOf(instance.ty)]
      ensures r.Ok? && instance.ty.size == 0 ==>
        heap.blocks == old(heap.blocks) && heap.layouts == old(heap.layouts)
    {
      if instance.ty.size > 0 {
        r, instanceDropped := NewAsWritten(heap, instance, outOfMemory);
        return;
      }
      // `NonNull::dangling()`: the alignment itself, non-null and aligned
      var b := new UniBox.Make(instance.ty.align, instance);
      return Ok(b), false;
    }

    /** `check_type::<T>()`: the stored type name is that of `T`. */
    predicate CheckType(t: TypeDesc)
      reads this
    {
      t.name == id
    }

    /**
     * `as_ref::<T>()`: panics unless `check_type::<T>()` holds; otherwise a
     * view of the whole block, which is a `T`. Nothing changes. As for
     * `AsMutRef`, the caller of this unsafe function promises that a type
     * with the stored type's name is the stored type.
     */
    method AsRef(heap: Allocator, t: TypeDesc) returns (r: Outcome<seq<byte>>)
      requires Valid(heap)
      requires t.name == autodrop.name ==> t == autodrop
      ensures r.Panicked? <==> t.name != autodrop.name
      ensures r.Returned? ==> r.value == Image(heap) && |r.value| == t.size
    {
      if !CheckType(t) {
        return Panicked;
      }
      return Returned(Image(heap));
    }

    /**
     * `as_mut_ref::<T>()` followed by the caller storing `v` through the
     * returned `&mut T`: the same check as `AsRef`; only the box's own block
     * changes. The caller of this unsafe function promises that a type with
     * the stored type's name is the stored type.
     */
    method AsMutRef(heap: Allocator, v: Value) returns (panicked: bool)
      requires Valid(heap) && v.Valid()
      requires v.ty.name == autodrop.name ==> v.ty == autodrop
      modifies heap
      ensures Valid(heap)
      ensures panicked <==> v.ty.name != autodrop.name
      ensures heap.layouts == old(heap.layouts)
      ensures panicked ==> heap.blocks == old(heap.blocks)
      ensures !panicked ==> Image(heap) == v.bytes
      ensures !panicked && layout.size > 0 ==> heap.blocks == old(heap.blocks)[buffer := v.bytes]
      ensures !panicked && layout.size == 0 ==> heap.blocks == old(heap.blocks)
    {
      if !CheckType(v.ty) {
        return true;
      }
      if layout.size > 0 {
        heap.Write(buffer, v.bytes);
      }
      return false;
    }

    /** `len()`. */
    function Len(): Usize
    {
      len
    }

    /** `id()`: a type name, not the `usize` the interface declares. */
    function Id(): string
    {
      id
    }

    /** The private `as_owned::<T>()`: reads `size_of::<T>()` bytes, unchecked. */
    function AsOwned(heap: Allocator, t: TypeDesc): seq<byte>
      reads this, heap
      requires Valid(heap) && t.size <= len
    {
      Image(heap)[..t.size]
    }

    /**
     * `drop`: first the bound callback reads the value out of the block and
     * drops it, then the block is deallocated with the layout recorded at
     * construction.
     */
    method Drop(heap: Allocator)
      requires Valid(heap)
      modifies this, heap
      ensures heap.Valid() && dropped
      ensures released == old(released) + [old(Image(heap))]
      ensures layout.size > 0 ==>
        heap.blocks == old(heap.blocks) - {buffer} && heap.layouts == old(heap.layouts) - {buffer}
      ensures layout.size == 0 ==>
        heap.blocks == old(heap.blocks) && heap.layouts == old(heap.layouts)
    {
      var value := AsOwned(heap, autodrop);
      assert value == Image(heap);
      released := released + [value];
      if layout.size > 0 {
        heap.Dealloc(buffer, layout);
      }
      dropped := true;
    }
  }

  /**
   * A heap box's whole life: what `new` stored reads back through
   * `as_ref`; a value stored through `as_mut_ref` replaces it; dropping the
   * box drops the value it holds at that moment, once, and gives its block
   * back, leaving the heap as it was.
   */
  method Lifecycle(heap: Allocator, instance: Value, next: Value)
    returns (first: Outcome<seq<byte>>, second: Outcome<seq<byte>>, ghost destroyed: seq<seq<byte>>)
    requires heap.Valid() && instance.Valid()
    requires next.Valid() && next.ty == instance.ty
    modifies heap
    ensures heap.Valid() && heap.blocks == old(heap.blocks) && heap.layouts == old(heap.layouts)
    ensures first == Returned(instance.bytes)
    ensures second == Returned(next.bytes)
    ensures destroyed == [next.bytes]
  {
    var r, _ := UniBox.New(heap, instance, false);
    var b := r.value;
    first := b.AsRef(heap, instance.ty);
    var panicked := b.AsMutRef(heap, next);
    second := b.AsRef(heap, instance.ty);
    b.Drop(heap);
    destroyed := b.released;
  }

  /**
   * `len()`, `id()` and `check_type::<T>()` of a box built by
   * `new(instance)`: the value's size, its type's name, and "`T` has that
   * name".
   */
  lemma AccessorsOfNew(heap: Allocator, b: UniBox, instance: Value, t: TypeDesc)
    requires b.Valid(heap) && b.Stores(instance)
    ensures b.Len() == instance.ty.size
    ensures b.Id() == instance.ty.name
    ensures b.CheckType(t) <==> t.name == instance.ty.name
  {
  }

  /**
   * What the callback relies on: when the box's block holds the image of a
   * value of the stored type, as `new` and a store through `as_mut_ref`
   * leave it, `as_owned` of that type gives back exactly that value.
   */
  lemma AsOwnedOfStored(heap: Allocator, b: UniBox, v: Value)
    requires b.Valid(heap) && v.Valid() && v.ty == b.autodrop
    requires b.Image(heap) == v.bytes
    ensures b.AsOwned(heap, v.ty) == v.bytes
  {
  }
}
