/**
 * The earlier revision of the inline boxes kept in src/stack/mod.rs: its own
 * buffer interface (with a `len()` of the array type), a `UniBoxN` that
 * checks only the size on access and has a public `as_owned`, and the
 * `UniBox64`, `UniBox128` and `UniBox256` wrappers behind a `StaticUniBox`
 * interface whose default `new` uses identifier 0. The buffers' `init`,
 * `copy_from_byte` and `copy_from_type` have the same bodies as in
 * src/stack/buffer.rs and are the ones of module `Buffer`.
 */
module LegacyStack {
  import opened Mem
  import opened Uniboxed
  import Buffer

  /** This revision implements its buffer interface for 64, 128 and 256 bytes only. */
  type Capacity = c: Buffer.Capacity | c != Buffer.B32 witness Buffer.B64

  /** `Buffer::len()`: a literal per array type, which is the array's length. */
  function BufferLen(c: Capacity): (n: nat)
    ensures n == c.Bytes()
  {
    if c == Buffer.B64 then 64 else if c == Buffer.B128 then 128 else 256
  }

  class UniBoxN {
    const capacity: Capacity
    const data: array<byte>
    const len: Usize
    const id: Usize
    /** The `autodrop` callback, represented by the type it was specialised to. */
    const autodrop: TypeDesc
    /**
     * Whether dropping the box still runs the callback. This revision has no
     * such flag: only `TakeOwned`, the corrected `as_owned`, clears it.
     */
    var armed: bool

    /** The byte images the callback has dropped, in order. */
    ghost var released: seq<seq<byte>>
    ghost var dropped: bool

    ghost predicate Valid()
      reads this
    {
      && !dropped
      && data.Length == capacity.Bytes()
      && autodrop.WellFormed()
      && len == autodrop.size
      && len <= data.Length
    }

    /** The state `new(instance, id)` leaves behind. */
    ghost predicate Stores(c: Capacity, instance: Value, id: Usize)
      reads this, data
    {
      && capacity == c
      && instance.ty.size <= c.Bytes()
      && data[..] == instance.bytes + Zeros(c.Bytes() - instance.ty.size)
      && len == instance.ty.size
      && this.id == id
      && autodrop == instance.ty
      && armed
      && released == []
    }

    constructor Make(c: Capacity, data: array<byte>, instance: Value, id: Usize)
      requires instance.Valid() && instance.ty.size <= c.Bytes()
      requires data[..] == instance.bytes + Zeros(c.Bytes() - instance.ty.size)
      ensures Valid() && Stores(c, instance, id) && this.data == data
    {
      capacity := c;
      this.data := data;
      len := instance.ty.size;
      this.id := id;
      autodrop := instance.ty;
      armed := true;
      released := [];
      dropped := false;
    }

    /**
     * `UniBoxN::new(instance, id)`: `Err` exactly when the value is larger
     * than `S::len()`, and then `instance` is dropped; otherwise the buffer
     * holds the value's bytes followed by zeros.
     */
    static method New(c: Capacity, instance: Value, id: Usize)
      returns (r: Result<UniBoxN>, ghost instanceDropped: bool)
      requires instance.Valid()
      ensures r.Err? <==> instance.ty.size > BufferLen(c)
      ensures instanceDropped <==> r.Err?
      ensures r.Ok? ==> fresh(r.value) && fresh(r.value.data)
      ensures r.Ok? ==> r.value.Valid() && r.value.Stores(c, instance, id)
    {
      var bytes := instance.bytes;
      var len := |bytes|;
      if len > BufferLen(c) {
        return Err, true;
      }
      var data := Buffer.Init(c);
      var panicked := Buffer.CopyFromByte(data, bytes, len);
      Buffer.CopyIntoZeros(c.Bytes(), bytes);
      var b := new UniBoxN.Make(c, data, instance, id);
      return Ok(b), false;
    }

    /**
     * `as_ref::<T>()`: panics exactly when the size of `T` is not the stored
     * one (alignment is not checked); otherwise a view of the first `len`
     * bytes of the buffer.
     */
    method AsRef(t: TypeDesc) returns (r: Outcome<seq<byte>>)
      requires Valid()
      ensures r.Panicked? <==> t.size != autodrop.size
      ensures r.Returned? ==> |r.value| == t.size && r.value == data[..len]
    {
      if t.size != len {
        return Panicked;
      }
      return Returned(data[..len]);
    }

    /**
     * `as_owned::<T>()`: the same size check; otherwise the first `len`
     * bytes are copied into a new zeroed buffer and read out of it as an
     * owned value. The box itself is not changed, so its callback is still
     * armed.
     */
    method AsOwned(t: TypeDesc) returns (r: Outcome<seq<byte>>)
      requires Valid()
      ensures r.Panicked? <==> t.size != autodrop.size
      ensures r.Returned? ==> |r.value| == t.size && r.value == data[..len]
    {
      if t.size != len {
        return Panicked;
      }
      var buf := Buffer.Init(capacity);
      var panicked := Buffer.CopyFromType(buf, data, t.size);
      Buffer.CopyPrefixReadBack(Zeros(capacity.Bytes()), data[..], t.size);
      return Returned(buf[..t.size]);
    }

    /**
     * The corrected `as_owned::<T>()`: as `AsOwned`, and on success the box
     * gives up the value, so that dropping it no longer runs the callback.
     */
    method TakeOwned(t: TypeDesc) returns (r: Outcome<seq<byte>>)
      requires Valid()
      modifies this
      ensures Valid() && released == old(released)
      ensures r.Panicked? <==> t.size != autodrop.size
      ensures r.Panicked? ==> armed == old(armed)
      ensures r.Returned? ==> r.value == data[..len] && !armed
    {
      r := AsOwned(t);
      if r.Returned? {
        armed := false;
      }
    }

    /** `len()`. */
    function Len(): (n: Usize)
      reads this
      requires Valid()
      ensures n == autodrop.size && n <= BufferLen(capacity)
    {
      len
    }

    /** `id()`. */
    function Id(): Usize
    {
      id
    }

    /**
     * `drop`: the bound callback takes the value out with `as_owned::<T>()`
     * (whose check passes, `T` being the stored type) and drops it; a box
     * whose value was taken with `TakeOwned` drops nothing.
     */
    method Drop()
      requires Valid()
      modifies this
      ensures dropped
      ensures released == old(released) + (if old(armed) then [data[..len]] else [])
    {
      if armed {
        var owned := AsOwned(autodrop);
        released := released + [owned.value];
      }
      dropped := true;
    }
  }

  /** `len()` and `id()` of a box built by `new(instance, id)` report the value's size and `id`. */
  lemma AccessorsOfNew(b: UniBoxN, c: Capacity, instance: Value, id: Usize)
    requires b.Valid() && b.Stores(c, instance, id)
    ensures b.Len() == instance.ty.size
    ensures b.Id() == id
  {
  }

  /**
   * `as_owned` then the box going out of scope, as written: the caller now
   * owns a value with the stored image, and the box's callback drops that
   * same image again, so the value is destroyed twice.
   */
  method OwnedThenDropAsWritten(c: Capacity, instance: Value)
    returns (owned: Outcome<seq<byte>>, ghost destroyed: seq<seq<byte>>)
    requires instance.Valid() && instance.ty.size <= c.Bytes()
    ensures owned == Returned(instance.bytes)
    ensures destroyed == [instance.bytes, instance.bytes]
  {
    var r, _ := UniBoxN.New(c, instance, DEFAULT_ID);
    var b := r.value;
    owned := b.AsOwned(instance.ty);
    assert b.data[..b.len] == instance.bytes;
    b.Drop();
    destroyed := [owned.value] + b.released;
  }

  /** `TakeOwned` then the box going out of scope: the value is destroyed once. */
  method TakeThenDrop(c: Capacity, instance: Value)
    returns (owned: Outcome<seq<byte>>, ghost destroyed: seq<seq<byte>>)
    requires instance.Valid() && instance.ty.size <= c.Bytes()
    ensures owned == Returned(instance.bytes)
    ensures destroyed == [instance.bytes]
  {
    var r, _ := UniBoxN.New(c, instance, DEFAULT_ID);
    var b := r.value;
    owned := b.TakeOwned(instance.ty);
    assert b.data[..b.len] == instance.bytes;
    b.Drop();
    destroyed := [owned.value] + b.released;
  }

  /**
   * `UniBox64`, `UniBox128` and `UniBox256` of this revision: each forwards
   * `new_with_id`, `as_ref`, `len` and `id` to the wrapped `UniBoxN`.
   */
  class StaticUniBox {
    const unibox: UniBoxN

    ghost predicate Valid()
      reads this, unibox
    {
      unibox.Valid()
    }

    constructor Wrap(unibox: UniBoxN)
      ensures this.unibox == unibox
    {
      this.unibox := unibox;
    }

    /** `new_with_id(instance, id)`: `Err` exactly when the wrapped `new` is. */
    static method NewWithId(c: Capacity, instance: Value, id: Usize)
      returns (r: Result<StaticUniBox>, ghost instanceDropped: bool)
      requires instance.Valid()
      ensures r.Err? <==> instance.ty.size > BufferLen(c)
      ensures instanceDropped <==> r.Err?
      ensures r.Ok? ==> fresh(r.value) && fresh(r.value.unibox) && fresh(r.value.unibox.data)
      ensures r.Ok? ==> r.value.Valid() && r.value.unibox.Stores(c, instance, id)
    {
      var inner;
      inner, instanceDropped := UniBoxN.New(c, instance, id);
      if inner.Err? {
        return Err, instanceDropped;
      }
      var w := new StaticUniBox.Wrap(inner.value);
      return Ok(w), instanceDropped;
    }

    /** The `StaticUniBox` interface's default `new(instance)`: identifier 0. */
    static method New(c: Capacity, instance: Value)
      returns (r: Result<StaticUniBox>, ghost instanceDropped: bool)
      requires instance.Valid()
      ensures r.Err? <==> instance.ty.size > BufferLen(c)
      ensures instanceDropped <==> r.Err?
      ensures r.Ok? ==> fresh(r.value) && fresh(r.value.unibox) && fresh(r.value.unibox.data)
      ensures r.Ok? ==> r.value.Valid() && r.value.unibox.Stores(c, instance, 0)
      ensures r.Ok? ==> r.value.Id() == 0
    {
      r, instanceDropped := NewWithId(c, instance, DEFAULT_ID);
    }

    /** `as_ref::<T>()`: the wrapped box's size check and view. */
    method AsRef(t: TypeDesc) returns (r: Outcome<seq<byte>>)
      requires Valid()
      ensures r.Panicked? <==> t.size != unibox.len
      ensures r.Returned? ==> r.value == unibox.data[..unibox.len]
    {
      r := unibox.AsRef(t);
    }

    /** `len()`: the wrapped box's stored size, within the capacity. */
    function Len(): (n: Usize)
      reads this, unibox
      requires Valid()
      ensures n == unibox.autodrop.size && n <= BufferLen(unibox.capacity)
    {
      unibox.Len()
    }

    /** `id()`: the wrapped box's identifier. */
    function Id(): Usize
    {
      unibox.Id()
    }

    /** Dropping the wrapper drops the wrapped box. */
    method Drop()
      requires Valid()
      modifies unibox
      ensures unibox.dropped
      ensures unibox.released ==
        old(unibox.released) + (if old(unibox.armed) then [unibox.data[..unibox.len]] else [])
    {
      unibox.Drop();
    }
  }

  /** `len()` and `id()` of a wrapper built by `new_with_id(instance, id)` report the value's size and `id`. */
  lemma AccessorsOfNewWithId(w: StaticUniBox, c: Capacity, instance: Value, id: Usize)
    requires w.Valid() && w.unibox.Stores(c, instance, id)
    ensures w.Len() == instance.ty.size
    ensures w.Id() == id
  {
  }
}
