/**
 * An abstract global allocator and `core::alloc::Layout`, as the heap boxes
 * use them. A block is named by its address; the allocator knows each live
 * block's contents and (ghost) the layout it was allocated with, so that
 * "deallocate with the layout of the allocation" is a precondition the heap
 * boxes must meet. Whether an allocation fails is a parameter.
 */
module Alloc {
  import opened Mem

  datatype Option<T> = None | Some(value: T)

  /** `Layout { size, align }`. */
  datatype Layout = Layout(size: nat, align: nat) {
    /**
     * The invariant every `Layout` keeps: the alignment is a power of two,
     * and the size rounded up to the next multiple of it does not exceed
     * `isize::MAX`.
     */
    predicate Valid() {
      IsPowerOfTwo(align) && RoundUp(size, align) <= ISIZE_MAX
    }
  }

  /** `size` rounded up to the next multiple of `align`. */
  function RoundUp(size: nat, align: nat): nat
    requires align > 0
  {
    (size + align - 1) / align * align
  }

  /** `Layout::new::<T>()`. */
  function LayoutOf(t: TypeDesc): Layout
  {
    Layout(t.size, t.align)
  }

  /**
   * `Layout::new::<T>()` keeps the invariant for every type, and needs no
   * padding: a type's size is already a multiple of its alignment.
   */
  lemma LayoutOfType(t: TypeDesc)
    requires t.WellFormed()
    ensures RoundUp(t.size, t.align) == t.size
    ensures LayoutOf(t).Valid()
  {
    RoundUpOfMultiple(t.size, t.align);
  }

  /**
   * `Layout::from_size_align(size, align)`: refused when `align` is not a
   * power of two, then when `size > isize::MAX - (align - 1)`. That second
   * test is the invariant's "rounded up, within `isize::MAX`" without the
   * rounding, so the function accepts exactly the valid layouts.
   */
  function FromSizeAlign(size: Usize, align: Usize): (r: Option<Layout>)
    ensures r.Some? <==> Layout(size, align).Valid()
    ensures r.Some? ==> r.value == Layout(size, align)
  {
    if IsPowerOfTwo(align) then
      RoundUpWithin(size, align);
      if size <= ISIZE_MAX - (align - 1) then Some(Layout(size, align)) else None
    else
      None
  }

  /**
   * `Layout::from_size_align(size_of::<T>(), align_of::<T>())` never fails
   * for a type `T`, and gives `Layout::new::<T>()`.
   */
  lemma FromSizeAlignOfType(t: TypeDesc)
    requires t.WellFormed()
    ensures FromSizeAlign(t.size, t.align) == Some(LayoutOf(t))
  {
    LayoutOfType(t);
  }

  /** 2 to the power `e`. */
  function Pow2(e: nat): nat
  {
    if e == 0 then 1 else 2 * Pow2(e - 1)
  }

  lemma {:induction false} Pow2Add(a: nat, b: nat)
    ensures Pow2(a + b) == Pow2(a) * Pow2(b)
  {
    if a > 0 {
      Pow2Add(a - 1, b);
      assert Pow2(a + b) == 2 * Pow2(a - 1 + b);
    }
  }

  lemma {:induction false} Pow2IsPowerOfTwo(e: nat)
    ensures IsPowerOfTwo(Pow2(e))
  {
    if e > 0 {
      Pow2IsPowerOfTwo(e - 1);
      assert Pow2(e) / 2 == Pow2(e - 1);
    }
  }

  /** `isize::MAX + 1` is 2^63, a power of two. */
  lemma IsizeBound()
    ensures ISIZE_MAX + 1 == Pow2(63)
    ensures IsPowerOfTwo(ISIZE_MAX + 1)
  {
    assert Pow2(1) == 2;
    Pow2Add(1, 1);
    Pow2Add(2, 1);
    Pow2Add(2, 2);
    Pow2Add(4, 3);
    Pow2Add(4, 4);
    Pow2Add(8, 7);
    Pow2Add(8, 8);
    Pow2Add(16, 15);
    Pow2Add(16, 16);
    Pow2Add(32, 31);
    Pow2IsPowerOfTwo(63);
  }

  /** Of two powers of two, the smaller divides the larger. */
  lemma {:induction false} PowerOfTwoDivides(a: nat, b: nat) returns (k: nat)
    requires IsPowerOfTwo(a) && IsPowerOfTwo(b) && a < 2 * b
    ensures b == k * a
    decreases a
  {
    if a == 1 {
      k := b;
    } else {
      k := PowerOfTwoDivides(a / 2, b / 2);
      calc {
        b;
        2 * (b / 2);
        2 * (k * (a / 2));
        k * (2 * (a / 2));
        k * a;
      }
    }
  }

  lemma MulLess(q: int, k: int, a: int)
    requires a > 0 && q * a < k * a
    ensures q < k
  {
  }

  lemma MulMono(q: int, k: int, a: int)
    requires a > 0 && q <= k
    ensures q * a <= k * a
  {
    assert (k - q) * a >= 0;
  }

  /**
   * Against any bound `m` that is a multiple of `align`, the rounded size
   * `q * align` is below `m` exactly when `size <= m - align`.
   */
  lemma RoundUpBelowMultiple(size: nat, align: nat, m: int, k: int, q: int, r: int)
    requires align > 0 && m == k * align
    requires size + align - 1 == q * align + r && 0 <= r < align
    ensures q * align <= m - 1 <==> size <= m - align
  {
    assert (k - 1) * align == k * align - align;
    if size <= m - align {
      MulLess(q, k, align);
      MulMono(q, k - 1, align);
    }
    if q * align <= m - 1 {
      MulLess(q, k, align);
      MulMono(q, k - 1, align);
    }
  }

  /**
   * Against any bound `m` that is a multiple of `align`, `size` rounded up
   * stays below `m` exactly when `size <= m - align`.
   */
  lemma RoundUpBelow(size: nat, align: nat, m: int, k: int)
    requires align > 0 && m == k * align
    ensures RoundUp(size, align) <= m - 1 <==> size <= m - align
  {
    var n := size + align - 1;
    var q, r := n / align, n % align;
    assert n == q * align + r && 0 <= r < align;
    assert RoundUp(size, align) == q * align;
    RoundUpBelowMultiple(size, align, m, k, q, r);
  }

  /**
   * For a power-of-two `usize` alignment, rounding `size` up stays within
   * `isize::MAX` exactly when `size <= isize::MAX - (align - 1)`: the
   * alignment divides `isize::MAX + 1`.
   */
  lemma RoundUpWithin(size: nat, align: nat)
    requires IsPowerOfTwo(align) && align < USIZE_LIMIT
    ensures RoundUp(size, align) <= ISIZE_MAX <==> size <= ISIZE_MAX - (align - 1)
  {
    IsizeBound();
    var k := PowerOfTwoDivides(align, ISIZE_MAX + 1);
    RoundUpBelow(size, align, ISIZE_MAX + 1, k);
  }

  /** A size that is already a multiple of the alignment needs no rounding. */
  lemma RoundUpOfMultiple(size: nat, align: nat)
    requires align > 0 && size % align == 0
    ensures RoundUp(size, align) == size
  {
    var m := size / align;
    assert size == m * align;
    var q := (size + align - 1) / align;
    var r := (size + align - 1) % align;
    assert size + align - 1 == q * align + r && 0 <= r < align;
    MulLess(m, q + 1, align);
    MulLess(q, m + 1, align);
  }

  type Ptr = nat
  /** The null pointer. */
  const NULL: Ptr := 0

  /**
   * `GlobalAlloc::alloc` and `alloc_zeroed` are undefined for a layout of
   * size zero.
   */
  predicate ValidRequest(layout: Layout)
  {
    layout.size > 0
  }

  class Allocator {
    /** The contents of each live block. */
    var blocks: map<Ptr, seq<byte>>
    /** The layout each live block was allocated with. */
    ghost var layouts: map<Ptr, Layout>
    /** The next address handed out; addresses are never reused. */
    var next: Ptr

    ghost predicate Valid()
      reads this
    {
      && blocks.Keys == layouts.Keys
      && NULL < next
      && (forall p :: p in blocks ==> NULL < p < next && |blocks[p]| == layouts[p].size)
    }

    constructor ()
      ensures Valid() && blocks == map[] && layouts == map[]
    {
      blocks := map[];
      layouts := map[];
      next := 1;
    }

    /**
     * `alloc(layout)`: null when out of memory; otherwise a new block of
     * `layout.size` bytes whose contents are unspecified.
     */
    method Alloc(layout: Layout, outOfMemory: bool) returns (p: Ptr)
      requires Valid() && ValidRequest(layout)
      modifies this
      ensures Valid()
      ensures outOfMemory ==> p == NULL && blocks == old(blocks) && layouts == old(layouts)
      ensures !outOfMemory ==> p != NULL && p !in old(blocks) && p in blocks
      ensures !outOfMemory ==> |blocks[p]| == layout.size
      ensures !outOfMemory ==> blocks == old(blocks)[p := blocks[p]] && layouts == old(layouts)[p := layout]
    {
      if outOfMemory {
        return NULL;
      }
      p := next;
      blocks := blocks[p := Zeros(layout.size)];
      layouts := layouts[p := layout];
      next := next + 1;
    }

    /** `alloc_zeroed(layout)`: as `Alloc`, and the new block is all zeros. */
    method AllocZeroed(layout: Layout, outOfMemory: bool) returns (p: Ptr)
      requires Valid() && ValidRequest(layout)
      modifies this
      ensures Valid()
      ensures outOfMemory ==> p == NULL && blocks == old(blocks) && layouts == old(layouts)
      ensures !outOfMemory ==> p != NULL && p !in old(blocks)
      ensures !outOfMemory ==> blocks == old(blocks)[p := Zeros(layout.size)] && layouts == old(layouts)[p := layout]
    {
      if outOfMemory {
        return NULL;
      }
      p := next;
      blocks := blocks[p := Zeros(layout.size)];
      layouts := layouts[p := layout];
      next := next + 1;
    }

    /** `ptr::copy` of a whole value into a live block. */
    method Write(p: Ptr, bytes: seq<byte>)
      requires Valid() && p in blocks && |bytes| == |blocks[p]|
      modifies this
      ensures Valid()
      ensures blocks == old(blocks)[p := bytes] && layouts == old(layouts)
    {
      blocks := blocks[p := bytes];
    }

    /**
     * `dealloc(p, layout)`: only defined for a live block and the very
     * layout it was allocated with.
     */
    method Dealloc(p: Ptr, layout: Layout)
      requires Valid() && p in layouts && layouts[p] == layout
      modifies this
      ensures Valid()
      ensures blocks == old(blocks) - {p} && layouts == old(layouts) - {p}
    {
      blocks := blocks - {p};
      layouts := layouts - {p};
    }
  }
}
