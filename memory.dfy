/** The two raw-memory primitives the container is built on, over byte arrays. */
module Memory {
  import Bytes

  /** `std::ptr::copy_nonoverlapping(src, dst, count)` from the start of one buffer to the start
      of another. */
  method CopyNonoverlapping(src: array<bv8>, dst: array<bv8>, count: nat)
    requires src != dst && count <= src.Length && count <= dst.Length
    modifies dst
    ensures dst[..count] == src[..count]
    ensures dst[count..] == old(dst[count..])
  {
    forall k | 0 <= k < count {
      dst[k] := src[k];
    }
  }

  /** `std::ptr::copy_nonoverlapping` of a value's bytes into `dst` at byte `offset`. */
  method WriteBytes(dst: array<bv8>, offset: nat, value: seq<bv8>)
    requires offset + |value| <= dst.Length
    modifies dst
    ensures dst[..] == old(dst[..offset]) + value + old(dst[offset + |value|..])
  {
    forall k | 0 <= k < |value| {
      dst[offset + k] := value[k];
    }
    assert dst[..] == old(dst[..offset]) + value + old(dst[offset + |value|..]);
  }

  /** `std::ptr::copy(src, dst, count)` inside one buffer; the two ranges may overlap. */
  method Copy(a: array<bv8>, src: nat, dst: nat, count: nat)
    requires src + count <= a.Length && dst + count <= a.Length
    modifies a
    ensures a[..] == Bytes.Moved(old(a[..]), src, dst, count)
  {
    ghost var before := a[..];
    forall k | dst <= k < dst + count {
      a[k] := a[src + (k - dst)];
    }
    forall k | 0 <= k < a.Length
      ensures a[k] == Bytes.Moved(before, src, dst, count)[k]
    {
      Bytes.MovedAt(before, src, dst, count, k);
    }
  }
}
