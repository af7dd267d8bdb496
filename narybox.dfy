/**
 * The inline box `UniBoxN<B>` (src/stack/narybox.rs): the byte image of a
 * value kept in a fixed-capacity buffer, with the value's size, alignment,
 * a caller-chosen identifier and the destructor callback bound to its type.
 */
module NaryBox {
  import opened Mem
  import opened Uniboxed
  import Buffer

  class UniBoxN {
    /** The `B` the box is instantiated with. */
    const capacity: Buffer.Capacity
    const data: array<byte>
    const len: Usize
    const alig: Usize
    const id: Usize
    /**
     * The `autodrop` callback, represented by the type it was specialised
     * to: when run it reads a value of that type out of `data` and drops it.
     */
    const autodrop: TypeDesc

    /** The byte images the callback has dropped, in order. */
    ghost var released: seq<seq<byte>>
    ghost var dropped: bool

    /** The invariant of a live box. */
    ghost predicate Valid()
      reads this
    {
      && !dropped
      && data.Length == capacity.Bytes()
      && autodrop.WellFormed()
      && len == autodrop.size
      && alig == autodrop.align
      && len <= data.Length
    }

    /** The state `new(instance, id)` leaves behind. */
    ghost predicate Stores(c: Buffer.Capacity, instance: Value, id: Usize)
      reads this, data
    {
      && capacity == c
      && instance.ty.size <= c.Bytes()
      && data[..] == instance.bytes + Zeros(c.Bytes() - instance.ty.size)
      && len == instance.ty.size
      && alig == instance.ty.align
      && this.id == id
      && autodrop == instance.ty
      && released == []
    }

    constructor Make(c: Buffer.Capacity, data: array<byte>, instance: Value, id: Usize)
      requires instance.Valid() && instance.ty.size <= c.Bytes()
      requires data[..] == instance.bytes + Zeros(c.Bytes() - instance.ty.size)
      ensures Valid() && Stores(c, instance, id) && this.data == data
    {
      capacity := c;
      this.data := data;
      len := instance.ty.size;
      alig := instance.ty.align;
      this.id := id;
      autodrop := instance.ty;
      released := [];
      dropped := false;
    }

    /**
     * `UniBoxN::new(instance, id)`: `Err` exactly when the value is larger
     * than the buffer, and then `instance` is dropped on the way out;
     * otherwise the buffer holds the value's bytes followed by zeros, and the
     * value is forgotten (its ownership moves into the box).
     */
    static method New(c: Buffer.Capacity, instance: Value, id: Usize)
      returns (r: Result<UniBoxN>, ghost instanceDropped: bool)
      requires instance.Valid()
      ensures r.Err? <==> instance.ty.size > c.Bytes()
      ensures instanceDropped <==> r.Err?
      ensures r.Ok? ==> fresh(r.value) && fresh(r.value.data)
      ensures r.Ok? ==> r.value.Valid() && r.value.Stores(c, instance, id)
    {
      var bytes := instance.bytes;
      var len := |bytes|;
      if len > c.Bytes() {
        return Err, true;
      }
      var data := Buffer.Init(c);
      var panicked := Buffer.CopyFromByte(data, bytes, len);
      Buffer.CopyIntoZeros(c.Bytes(), bytes);
      var b := new UniBoxN.Make(c, data, instance, id);
      return Ok(b), false;
    }

    /** `integrity_checks::<T>()` panics exactly when this is false. */
    predicate IntegrityOk(t: TypeDesc)
      reads this
    {
      t.size == len && t.align == alig
    }

    /**
     * `as_ref::<T>()`: panics unless the size and the alignment of `T` are
     * those stored; otherwise a view of the first `len` bytes of the buffer.
     */
    method AsRef(t: TypeDesc) returns (r: Outcome<seq<byte>>)
      requires Valid()
      ensures r.Panicked? <==> t.size != autodrop.size || t.align != autodrop.align
      ensures r.Returned? ==> |r.value| == t.size && r.value == data[..len]
    {
      if !IntegrityOk(t) {
        return Panicked;
      }
      return Returned(data[..len]);
    }

    /**
     * `as_mut_ref::<T>()` followed by the caller storing `v` through the
     * returned `&mut T`: the same check as `AsRef`; only the first `len`
     * bytes of `data` can change, never `len`, `alig` or `id`.
     */
    method AsMutRef(v: Value) returns (panicked: bool)
      requires Valid() && v.Valid()
      modifies data
      ensures panicked <==> v.ty.size != len || v.ty.align != alig
      ensures panicked ==> data[..] == old(data[..])
      ensures !panicked ==> data[..] == v.bytes + old(data[len..])
    {
      if !IntegrityOk(v.ty) {
        return true;
      }
      var p := Buffer.CopyFromByte(data, v.bytes, len);
      Buffer.CopyPrefixReadBack(old(data[..]), v.bytes, len);
      return false;
    }

    /** `len()`: the stored size, which always fits the buffer. */
    function Len(): (n: Usize)
      reads this
      requires Valid()
      ensures n == autodrop.size && n <= capacity.Bytes()
    {
      len
    }

    /** `id()`: the identifier given at construction. */
    function Id(): Usize
    {
      id
    }

    /** The private `as_owned::<T>()`: reads `size_of::<T>()` bytes, unchecked. */
    function AsOwned(t: TypeDesc): seq<byte>
      reads data
      requires t.size <= data.Length
    {
      data[..t.size]
    }

    /**
     * `drop`: runs the bound callback once, which reads the value out of the
     * buffer's current contents and drops it.
     */
    method Drop()
      requires Valid()
      modifies this
      ensures dropped
      ensures released == old(released) + [data[..len]]
    {
      released := released + [AsOwned(autodrop)];
      dropped := true;
    }
  }

  /** A box built by `new` accepts exactly the accesses with the stored size and alignment. */
  lemma IntegrityOfNew(b: UniBoxN, c: Buffer.Capacity, instance: Value, id: Usize, t: TypeDesc)
    requires b.Valid() && b.Stores(c, instance, id)
    ensures b.IntegrityOk(t) <==> t.size == instance.ty.size && t.align == instance.ty.align
    ensures b.IntegrityOk(instance.ty)
  {
  }

  /** `len()` and `id()` of a box built by `new(instance, id)` report the value's size and `id`. */
  lemma AccessorsOfNew(b: UniBoxN, c: Buffer.Capacity, instance: Value, id: Usize)
    requires b.Valid() && b.Stores(c, instance, id)
    ensures b.Len() == instance.ty.size
    ensures b.Id() == id
  {
  }

  /**
   * What the callback relies on: when the buffer starts with the image of a
   * value, as `new` leaves it (followed by zeros) and as a store through
   * `as_mut_ref` leaves it (followed by the old tail), `as_owned` of that
   * value's type gives back exactly that value.
   */
  lemma AsOwnedOfStored(b: UniBoxN, v: Value, rest: seq<byte>)
    requires v.Valid() && v.ty.size <= b.data.Length
    requires b.data[..] == v.bytes + rest
    ensures b.AsOwned(v.ty) == v.bytes
  {
  }

  /**
   * A box's whole life: what `new` stored reads back through `as_ref`; a
   * value stored through `as_mut_ref` replaces it; and dropping the box
   * drops the value it holds at that moment, once.
   */
  method Lifecycle(c: Buffer.Capacity, instance: Value, next: Value, id: Usize)
    returns (first: Outcome<seq<byte>>, second: Outcome<seq<byte>>, ghost destroyed: seq<seq<byte>>)
    requires instance.Valid() && instance.ty.size <= c.Bytes()
    requires next.Valid() && next.ty == instance.ty
    ensures first == Returned(instance.bytes)
    ensures second == Returned(next.bytes)
    ensures destroyed == [next.bytes]
  {
    var r, _ := UniBoxN.New(c, instance, id);
    var b := r.value;
    assert b.data[..b.len] == instance.bytes;
    first := b.AsRef(instance.ty);
    var panicked := b.AsMutRef(next);
    assert b.data[..b.len] == next.bytes;
    second := b.AsRef(instance.ty);
    b.Drop();
    destroyed := b.released;
  }
}
