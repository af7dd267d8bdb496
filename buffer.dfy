/**
 * The fixed-capacity byte buffers (src/stack/buffer.rs): `[u8; 32]`,
 * `[u8; 64]`, `[u8; 128]` and `[u8; 256]`. A buffer is created zeroed and is
 * changed only by overwriting a prefix of it in place.
 */
module Buffer {
  import opened Mem

  /** The four array sizes that implement the buffer interface. */
  datatype Capacity = B32 | B64 | B128 | B256 {
    function Bytes(): nat {
      match this
      case B32 => 32
      case B64 => 64
      case B128 => 128
      case B256 => 256
    }
  }

  /** `dst` with its first `len` bytes replaced by the first `len` bytes of `src`. */
  function CopyPrefix(dst: seq<byte>, src: seq<byte>, len: nat): (r: seq<byte>)
    requires len <= |dst| && len <= |src|
    ensures |r| == |dst|
    ensures forall i :: 0 <= i < len ==> r[i] == src[i]
    ensures forall i :: len <= i < |dst| ==> r[i] == dst[i]
  {
    src[..len] + dst[len..]
  }

  /** `init()`: a buffer of the capacity's size, every byte zero. */
  method Init(c: Capacity) returns (a: array<byte>)
    ensures fresh(a)
    ensures a[..] == Zeros(c.Bytes())
  {
    a := new byte[c.Bytes()](_ => 0);
    assert a[..] == Zeros(c.Bytes());
  }

  /**
   * `copy_from_byte(src, len)`, i.e. `self[0..len].clone_from_slice(src)`:
   * panics, before writing anything, unless `len` fits the buffer and `src`
   * has exactly `len` bytes; otherwise overwrites the first `len` bytes.
   */
  method CopyFromByte(a: array<byte>, src: seq<byte>, len: nat) returns (panicked: bool)
    modifies a
    ensures panicked <==> !(len <= a.Length && |src| == len)
    ensures panicked ==> a[..] == old(a[..])
    ensures !panicked ==> a[..] == CopyPrefix(old(a[..]), src, len)
  {
    if len > a.Length || |src| != len {
      return true;
    }
    var i := 0;
    while i < len
      invariant 0 <= i <= len
      invariant a[..] == CopyPrefix(old(a[..]), src, i)
    {
      a[i] := src[i];
      i := i + 1;
    }
    return false;
  }

  /**
   * `copy_from_type(src, len)`, i.e.
   * `self[0..len].clone_from_slice(&src[0..len])` where `src` is a buffer of
   * the same capacity: panics unless `len` fits; otherwise overwrites the
   * first `len` bytes with those of `src` and leaves `src` as it was.
   */
  method CopyFromType(a: array<byte>, src: array<byte>, len: nat) returns (panicked: bool)
    requires src.Length == a.Length
    modifies a
    ensures panicked <==> len > a.Length
    ensures panicked ==> a[..] == old(a[..])
    ensures !panicked ==> a[..] == CopyPrefix(old(a[..]), old(src[..]), len)
    ensures src[..] == old(src[..])
  {
    if len > a.Length {
      return true;
    }
    var i := 0;
    while i < len
      invariant 0 <= i <= len
      invariant a[..] == CopyPrefix(old(a[..]), old(src[..]), i)
      invariant src[..] == old(src[..])
    {
      a[i] := src[i];
      i := i + 1;
    }
    return false;
  }

  /** Copying the same prefix a second time changes nothing. */
  lemma CopyPrefixIdempotent(dst: seq<byte>, src: seq<byte>, len: nat)
    requires len <= |dst| && len <= |src|
    ensures CopyPrefix(CopyPrefix(dst, src, len), src, len) == CopyPrefix(dst, src, len)
  {
    var once := CopyPrefix(dst, src, len);
    var twice := CopyPrefix(once, src, len);
    assert forall i :: 0 <= i < |dst| ==> twice[i] == once[i];
  }

  /** A prefix copy into a fresh buffer gives the source followed by zeros. */
  lemma CopyIntoZeros(n: nat, src: seq<byte>)
    requires |src| <= n
    ensures CopyPrefix(Zeros(n), src, |src|) == src + Zeros(n - |src|)
  {
    var r := CopyPrefix(Zeros(n), src, |src|);
    assert forall i :: 0 <= i < n ==> r[i] == (src + Zeros(n - |src|))[i];
  }

  /** The prefix a copy wrote reads back as the source's prefix. */
  lemma CopyPrefixReadBack(dst: seq<byte>, src: seq<byte>, len: nat)
    requires len <= |dst| && len <= |src|
    ensures CopyPrefix(dst, src, len)[..len] == src[..len]
    ensures CopyPrefix(dst, src, len)[len..] == dst[len..]
  {
    var r := CopyPrefix(dst, src, len);
    assert forall i :: 0 <= i < len ==> r[..len][i] == src[..len][i];
    assert forall i :: 0 <= i < |dst| - len ==> r[len..][i] == dst[len..][i];
  }
}
