/**
 * The round trips the crate's tests exercise (src/tests.rs): a struct
 * wrapping an array of N bytes whose byte i is `i as u8`, stored with `new`
 * into the inline box of capacity N or into the heap box, read back with
 * `as_ref` and checked byte by byte.
 */
module RoundTrip {
  import opened Mem
  import opened Uniboxed
  import Buffer
  import opened StaticBox
  import opened DynamicBox
  import Alloc

  /** Byte i is `i as u8`. */
  function Succession(n: nat): (r: seq<byte>)
    ensures |r| == n
    ensures forall i :: 0 <= i < n ==> r[i] == i % 256
  {
    if n == 0 then [] else Succession(n - 1) + [(n - 1) % 256]
  }

  /** The test struct `TestN([u8; N])`: N bytes, alignment one. */
  function TestType(n: nat): TypeDesc
  {
    TypeDesc("unibox::tests::Test" + (if n == 32 then "32" else if n == 64 then "64" else if n == 128 then "128" else "256"), n, 1)
  }

  /** `init_array`: writes `i as u8` into byte i. */
  method InitArray(a: array<byte>)
    modifies a
    ensures a[..] == Succession(a.Length)
  {
    var i := 0;
    while i < a.Length
      invariant 0 <= i <= a.Length
      invariant forall j :: 0 <= j < i ==> a[j] == j % 256
    {
      a[i] := i % 256;
      i := i + 1;
    }
  }

  /** `check_sucession`: whether byte i is `i as u8` for every i. */
  method CheckSuccession(arr: seq<byte>) returns (ok: bool)
    ensures ok <==> arr == Succession(|arr|)
  {
    var i := 0;
    while i < |arr|
      invariant 0 <= i <= |arr|
      invariant forall j :: 0 <= j < i ==> arr[j] == j % 256
    {
      if arr[i] != i % 256 {
        return false;
      }
      i := i + 1;
    }
    return true;
  }

  /** `TestN::new()`: the test value of N bytes. */
  method NewTestValue(c: Buffer.Capacity) returns (v: Value)
    ensures v.Valid() && v.ty == TestType(c.Bytes()) && v.bytes == Succession(c.Bytes())
  {
    var arr := Buffer.Init(c);
    InitArray(arr);
    v := Value(TestType(c.Bytes()), arr[..]);
  }

  /**
   * `test_type::<TestN, UniBoxN>()` for the inline box of capacity N: the
   * value fills the box exactly, so `new` succeeds, and `as_ref` reads the
   * same bytes back, so the check passes.
   */
  method TestStatic(c: Buffer.Capacity) returns (readBack: seq<byte>, ok: bool)
    ensures readBack == Succession(c.Bytes())
    ensures ok
  {
    var v := NewTestValue(c);
    var r, _ := StaticUniBox.New(c, v);
    var ubox := r.value;
    var inner := ubox.AsRef(v.ty);
    readBack := inner.value;
    ok := CheckSuccession(readBack);
    ubox.Drop();
  }

  /**
   * `test_type::<TestN, UniBox>()` for the heap box: `new` fails only when
   * the allocator does, making `expect` panic; otherwise the bytes read back
   * are the value's, the check passes, and dropping the box gives its block
   * back.
   */
  method TestDynamic(heap: Alloc.Allocator, c: Buffer.Capacity, outOfMemory: bool)
    returns (r: Outcome<seq<byte>>)
    requires heap.Valid()
    modifies heap
    ensures heap.Valid()
    ensures r == if outOfMemory then Panicked else Returned(Succession(c.Bytes()))
    ensures heap.blocks == old(heap.blocks) && heap.layouts == old(heap.layouts)
  {
    var v := NewTestValue(c);
    var made, _ := UniBox.New(heap, v, outOfMemory);
    if made.Err? {
      return Panicked;
    }
    var ubox := made.value;
    var inner := ubox.AsRef(heap, v.ty);
    var ok := CheckSuccession(inner.value);
    assert ok;
    ubox.Drop(heap);
    return Returned(inner.value);
  }
}
