/**
 * The named inline boxes `UniBox32`, `UniBox64`, `UniBox128` and `UniBox256`
 * (src/stack/staticbox.rs). Each wraps a `UniBoxN` over `[u8; 32]`,
 * `[u8; 64]`, `[u8; 128]` or `[u8; 256]` and forwards every call to it; the
 * four differ only in that capacity, so one class stands for all four, the
 * wrapped box's `capacity` telling which it is.
 */
module StaticBox {
  import opened Mem
  import opened Uniboxed
  import Buffer
  import opened NaryBox

  class StaticUniBox {
    const unibox: UniBoxN

    ghost predicate Valid()
      reads this, unibox
    {
      unibox.Valid()
    }

    constructor Wrap(unibox: UniBoxN)
      ensures this.unibox == unibox
    {
      this.unibox := unibox;
    }

    /**
     * `new_with_id(instance, id)`: `Err` exactly when the wrapped box's `new`
     * is `Err` (the value does not fit the capacity); otherwise that box,
     * unchanged, inside the wrapper.
     */
    static method NewWithId(c: Buffer.Capacity, instance: Value, id: Usize)
      returns (r: Result<StaticUniBox>, ghost instanceDropped: bool)
      requires instance.Valid()
      ensures r.Err? <==> instance.ty.size > c.Bytes()
      ensures instanceDropped <==> r.Err?
      ensures r.Ok? ==> fresh(r.value) && fresh(r.value.unibox) && fresh(r.value.unibox.data)
      ensures r.Ok? ==> r.value.Valid() && r.value.unibox.Stores(c, instance, id)
    {
      var inner;
      inner, instanceDropped := UniBoxN.New(c, instance, id);
      if inner.Err? {
        return Err, instanceDropped;
      }
      var w := new StaticUniBox.Wrap(inner.value);
      return Ok(w), instanceDropped;
    }

    /** The interface's default `new(instance)`: `new_with_id(instance, 0)`. */
    static method New(c: Buffer.Capacity, instance: Value)
      returns (r: Result<StaticUniBox>, ghost instanceDropped: bool)
      requires instance.Valid()
      ensures r.Err? <==> instance.ty.size > c.Bytes()
      ensures instanceDropped <==> r.Err?
      ensures r.Ok? ==> fresh(r.value) && fresh(r.value.unibox) && fresh(r.value.unibox.data)
      ensures r.Ok? ==> r.value.Valid() && r.value.unibox.Stores(c, instance, 0)
      ensures r.Ok? ==> r.value.Id() == 0
    {
      r, instanceDropped := NewWithId(c, instance, DEFAULT_ID);
    }

    /** `as_ref::<T>()`: exactly the wrapped box's check and view. */
    method AsRef(t: TypeDesc) returns (r: Outcome<seq<byte>>)
      requires Valid()
      ensures r.Panicked? <==> !unibox.IntegrityOk(t)
      ensures r.Returned? ==> |r.value| == t.size && r.value == unibox.data[..unibox.len]
    {
      r := unibox.AsRef(t);
    }

    /** `as_mut_ref::<T>()` and a store through it, forwarded. */
    method AsMutRef(v: Value) returns (panicked: bool)
      requires Valid() && v.Valid()
      modifies unibox.data
      ensures panicked <==> !unibox.IntegrityOk(v.ty)
      ensures panicked ==> unibox.data[..] == old(unibox.data[..])
      ensures !panicked ==> unibox.data[..] == v.bytes + old(unibox.data[unibox.len..])
    {
      panicked := unibox.AsMutRef(v);
    }

    /** `len()`: the wrapped box's stored size, within the capacity. */
    function Len(): (n: Usize)
      reads this, unibox
      requires Valid()
      ensures n == unibox.autodrop.size && n <= unibox.capacity.Bytes()
    {
      unibox.Len()
    }

    /** `id()`: the wrapped box's identifier. */
    function Id(): Usize
    {
      unibox.Id()
    }

    /** Dropping the wrapper drops the wrapped box, which runs its callback once. */
    method Drop()
      requires Valid()
      modifies unibox
      ensures unibox.dropped
      ensures unibox.released == old(unibox.released) + [unibox.data[..unibox.len]]
    {
      unibox.Drop();
    }
  }

  /** `len()` and `id()` of a wrapper built by `new_with_id(instance, id)` report the value's size and `id`. */
  lemma AccessorsOfNewWithId(w: StaticUniBox, c: Buffer.Capacity, instance: Value, id: Usize)
    requires w.Valid() && w.unibox.Stores(c, instance, id)
    ensures w.Len() == instance.ty.size
    ensures w.Id() == id
  {
  }
}
