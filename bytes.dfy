/** Byte-level view of an element buffer: slot `i` of a buffer of `size`-byte elements is the
    `size` bytes starting at byte offset `Offset(i, size)`. */
module Bytes {

  /** The byte offset of slot `i`, that is `i * size` (see `OffsetIsProduct`), written out
      slot by slot so that the proofs below never need non-linear arithmetic. */
  function Offset(i: nat, size: nat): (r: nat)
  {
    if i == 0 then 0 else Offset(i - 1, size) + size
  }

  lemma {:induction false} OffsetIsProduct(i: nat, size: nat)
    ensures Offset(i, size) == i * size
  {
    if i > 0 {
      OffsetIsProduct(i - 1, size);
    }
  }

  /** Offsets of `i` slots then `j` more slots add up. */
  lemma {:induction false} OffsetAdd(i: nat, j: nat, size: nat)
    ensures Offset(i + j, size) == Offset(i, size) + Offset(j, size)
    decreases j
  {
    if j > 0 {
      OffsetAdd(i, j - 1, size);
    }
  }

  /** A later slot starts no earlier. */
  lemma OffsetMono(i: nat, j: nat, size: nat)
    requires i <= j
    ensures Offset(i, size) <= Offset(j, size)
  {
    OffsetAdd(i, j - i, size);
  }

  /** With one-byte elements, slot offsets are byte indexes. */
  lemma {:induction false} OffsetUnit(i: nat)
    ensures Offset(i, 1) == i
  {
    if i > 0 {
      OffsetUnit(i - 1);
    }
  }

  /** With elements of at least one byte, `k` slots span at least `k` bytes. */
  lemma {:induction false} OffsetAtLeastCount(k: nat, size: nat)
    requires size > 0
    ensures k <= Offset(k, size)
  {
    if k > 0 {
      OffsetAtLeastCount(k - 1, size);
    }
  }

  /** The `n` slots of `size` bytes each that `bytes` holds, in order. */
  function Slots(bytes: seq<bv8>, size: nat, n: nat): (r: seq<seq<bv8>>)
    requires |bytes| == Offset(n, size)
    ensures |r| == n
    decreases n
  {
    if n == 0 then []
    else
      var last := Offset(n - 1, size);
      Slots(bytes[..last], size, n - 1) + [bytes[last..]]
  }

  /** Slot `j` of the typed view is the `size` bytes at offset `Offset(j, size)`. */
  lemma {:induction false} SlotAt(bytes: seq<bv8>, size: nat, n: nat, j: nat)
    requires |bytes| == Offset(n, size) && j < n
    ensures Offset(j + 1, size) <= |bytes|
    ensures Slots(bytes, size, n)[j] == bytes[Offset(j, size)..Offset(j + 1, size)]
    decreases n
  {
    OffsetMono(j + 1, n, size);
    if j < n - 1 {
      var prefix := bytes[..Offset(n - 1, size)];
      OffsetMono(j + 1, n - 1, size);
      SlotAt(prefix, size, n - 1, j);
      assert prefix[Offset(j, size)..Offset(j + 1, size)] == bytes[Offset(j, size)..Offset(j + 1, size)];
    }
  }

  /** Concatenating two byte runs concatenates their slots. */
  lemma {:induction false} SlotsAppend(a: seq<bv8>, b: seq<bv8>, size: nat, m: nat, k: nat)
    requires |a| == Offset(m, size) && |b| == Offset(k, size)
    ensures |a + b| == Offset(m + k, size)
    ensures Slots(a + b, size, m + k) == Slots(a, size, m) + Slots(b, size, k)
    decreases k
  {
    OffsetAdd(m, k, size);
    if k == 0 {
      assert a + b == a;
    } else {
      OffsetAdd(m, k - 1, size);
      var b' := b[..Offset(k - 1, size)];
      assert (a + b)[..Offset(m + k - 1, size)] == a + b';
      assert (a + b)[Offset(m + k - 1, size)..] == b[Offset(k - 1, size)..];
      SlotsAppend(a, b', size, m, k - 1);
    }
  }

  /** Dropping the bytes of slot `i` drops slot `i` and keeps every other slot in order. */
  lemma SlotsRemoveAt(bytes: seq<bv8>, size: nat, n: nat, i: nat)
    requires |bytes| == Offset(n, size) && i < n
    ensures Offset(i + 1, size) <= |bytes|
    ensures |bytes[..Offset(i, size)] + bytes[Offset(i + 1, size)..]| == Offset(n - 1, size)
    ensures Slots(bytes[..Offset(i, size)] + bytes[Offset(i + 1, size)..], size, n - 1)
         == Slots(bytes, size, n)[..i] + Slots(bytes, size, n)[i + 1..]
  {
    OffsetAdd(i + 1, n - 1 - i, size);
    OffsetAdd(i, n - 1 - i, size);
    var p, x, q := bytes[..Offset(i, size)], bytes[Offset(i, size)..Offset(i + 1, size)], bytes[Offset(i + 1, size)..];
    assert bytes == p + x + q;
    SlotsAppend(p, x, size, i, 1);
    assert Slots(x, size, 1) == [x];
    SlotsAppend(p + x, q, size, i + 1, n - 1 - i);
    SlotsAppend(p, q, size, i, n - 1 - i);
  }

  /** The buffer after `std::ptr::copy` of `count` bytes from offset `src` to offset `dst`:
      the ranges may overlap, and the copy behaves as if it went through a scratch buffer. */
  function Moved(bytes: seq<bv8>, src: nat, dst: nat, count: nat): (r: seq<bv8>)
    requires src + count <= |bytes| && dst + count <= |bytes|
    ensures |r| == |bytes|
  {
    bytes[..dst] + bytes[src..src + count] + bytes[dst + count..]
  }

  /** Byte `k` after the copy: a source byte inside the destination range, the old byte elsewhere. */
  lemma MovedAt(bytes: seq<bv8>, src: nat, dst: nat, count: nat, k: nat)
    requires src + count <= |bytes| && dst + count <= |bytes| && k < |bytes|
    ensures Moved(bytes, src, dst, count)[k] == if dst <= k < dst + count then bytes[src + (k - dst)] else bytes[k]
  {
  }

  /** A copy leaves every byte below its destination alone. */
  lemma MovedKeepsBelow(bytes: seq<bv8>, src: nat, dst: nat, count: nat, lo: nat, hi: nat)
    requires src + count <= |bytes| && dst + count <= |bytes|
    requires lo <= hi <= dst
    ensures Moved(bytes, src, dst, count)[lo..hi] == bytes[lo..hi]
  {
  }

  /** Copying `count` bytes down by `gap` closes a gap of `gap` bytes at `dst`. */
  lemma MovedClosesGap(bytes: seq<bv8>, dst: nat, gap: nat, count: nat)
    requires dst + gap + count <= |bytes|
    ensures Moved(bytes, dst + gap, dst, count)[..dst + count]
         == bytes[..dst] + bytes[dst + gap..dst + gap + count]
  {
  }

  /** Where `erase` reads from stays inside the live bytes when elements are at least one byte wide. */
  lemma EraseCopyInBounds(size: nat, len: nat, index: nat)
    requires index + 1 < len && size > 0
    ensures Offset(index + 1, size) + (len - 1 - index) <= Offset(len, size)
  {
    OffsetAdd(index + 1, len - 1 - index, size);
    OffsetAtLeastCount(len - 1 - index, size);
  }

  /** The buffer after the source's `erase(index)` on `len` live slots, as written: when
      `index < len - 1` it copies `len - 1 - index` BYTES (not slots) from slot `index + 1`
      down to slot `index`; otherwise no byte moves. */
  function EraseShift(bytes: seq<bv8>, size: nat, len: nat, index: nat): (r: seq<bv8>)
    requires 0 < len && Offset(len, size) <= |bytes|
    requires index + 1 < len ==> size > 0
    ensures |r| == |bytes|
  {
    if index + 1 < len then
      EraseCopyInBounds(size, len, index);
      Moved(bytes, Offset(index + 1, size), Offset(index, size), len - 1 - index)
    else
      bytes
  }

  /** The `len - 1` slots left live after `erase` has shifted `bytes`. */
  function ErasedSlots(bytes: seq<bv8>, size: nat, len: nat, index: nat): (r: seq<seq<bv8>>)
    requires 0 < len && Offset(len, size) <= |bytes|
    requires index + 1 < len ==> size > 0
    ensures |r| == len - 1
  {
    OffsetMono(len - 1, len, size);
    Slots(EraseShift(bytes, size, len, index)[..Offset(len - 1, size)], size, len - 1)
  }

  /** `erase` never touches the bytes in front of the erased slot, so every slot before it survives. */
  lemma EraseShiftKeepsEarlierSlot(bytes: seq<bv8>, size: nat, len: nat, index: nat, j: nat)
    requires 0 < len && Offset(len, size) <= |bytes|
    requires index + 1 < len ==> size > 0
    requires j < index && j < len - 1
    ensures Offset(len - 1, size) <= |bytes|
    ensures Slots(EraseShift(bytes, size, len, index)[..Offset(len - 1, size)], size, len - 1)[j]
         == Slots(bytes[..Offset(len, size)], size, len)[j]
  {
    OffsetMono(len - 1, len, size);
    OffsetMono(j + 1, index, size);
    var r := EraseShift(bytes, size, len, index);
    var lo, hi := Offset(j, size), Offset(j + 1, size);
    var live := bytes[..Offset(len, size)];
    var live' := r[..Offset(len - 1, size)];
    SlotAt(live, size, len, j);
    SlotAt(live', size, len - 1, j);
    if index + 1 < len {
      EraseCopyInBounds(size, len, index);
      MovedKeepsBelow(bytes, Offset(index + 1, size), Offset(index, size), len - 1 - index, lo, hi);
      assert r[lo..hi] == bytes[lo..hi];
    } else {
      assert r == bytes;
    }
    PrefixSlice(r, Offset(len - 1, size), lo, hi);
    PrefixSlice(bytes, Offset(len, size), lo, hi);
  }

  /** A slice that lies inside a prefix is the same slice of the whole sequence. */
  lemma PrefixSlice(s: seq<bv8>, n: nat, lo: nat, hi: nat)
    requires lo <= hi <= n <= |s|
    ensures s[..n][lo..hi] == s[lo..hi]
  {
  }

  /** Every slot in front of the erased one survives `erase`. */
  lemma EraseShiftKeepsEarlierSlots(bytes: seq<bv8>, size: nat, len: nat, index: nat)
    requires 0 < len && Offset(len, size) <= |bytes|
    requires index + 1 < len ==> size > 0
    ensures forall j :: 0 <= j < index && j < len - 1 ==>
      ErasedSlots(bytes, size, len, index)[j] == Slots(bytes[..Offset(len, size)], size, len)[j]
  {
    OffsetMono(len - 1, len, size);
    forall j | 0 <= j < index && j < len - 1
      ensures ErasedSlots(bytes, size, len, index)[j] == Slots(bytes[..Offset(len, size)], size, len)[j]
    {
      EraseShiftKeepsEarlierSlot(bytes, size, len, index, j);
    }
  }

  /** With one-byte elements the byte count equals the slot count, and `erase(index)` is a true
      deletion of slot `index` from the live range. */
  lemma EraseShiftUnitSize(bytes: seq<bv8>, len: nat, index: nat)
    requires index < len <= |bytes|
    ensures Offset(len, 1) == len && Offset(len - 1, 1) == len - 1
    ensures ErasedSlots(bytes, 1, len, index)
         == Slots(bytes[..len], 1, len)[..index] + Slots(bytes[..len], 1, len)[index + 1..]
  {
    OffsetUnit(len);
    OffsetUnit(len - 1);
    OffsetUnit(index);
    OffsetUnit(index + 1);
    var r := EraseShift(bytes, 1, len, index);
    var live := bytes[..len];
    assert r[..len - 1] == live[..index] + live[index + 1..];
    SlotsRemoveAt(live, 1, len, index);
  }

  /** An `erase(index)` with `index >= len - 1` moves nothing: it only forgets the last slot, so an
      out-of-range index behaves like `pop`. */
  lemma EraseShiftAtOrPastEnd(bytes: seq<bv8>, size: nat, len: nat, index: nat)
    requires 0 < len && Offset(len, size) <= |bytes| && index + 1 >= len
    ensures ErasedSlots(bytes, size, len, index) == Slots(bytes[..Offset(len, size)], size, len)[..len - 1]
  {
    OffsetMono(len - 1, len, size);
    var live := bytes[..Offset(len, size)];
    assert live[..Offset(len - 1, size)] == bytes[..Offset(len - 1, size)];
  }

  /** The source's `erase` on two-byte elements: erasing slot 0 of `[1,2] [3,4] [5,6]` leaves
      `[3,4] [3,4]` instead of `[3,4] [5,6]`, because it moves 2 bytes where 4 were needed. */
  lemma EraseShiftMisplacesWideSlots()
    ensures Offset(2, 2) == 4 && Offset(3, 2) == 6
    ensures Slots(EraseShift([1, 2, 3, 4, 5, 6], 2, 3, 0)[..4], 2, 2) == [[3, 4], [3, 4]]
    ensures Slots([1, 2, 3, 4, 5, 6], 2, 3)[..0] + Slots([1, 2, 3, 4, 5, 6], 2, 3)[1..] == [[3, 4], [5, 6]]
  {
    assert Offset(1, 2) == 2 && Offset(2, 2) == 4 && Offset(3, 2) == 6;
    var r := EraseShift([1, 2, 3, 4, 5, 6], 2, 3, 0);
    assert r[..4] == [3, 4, 3, 4];
    SlotAt([3, 4, 3, 4], 2, 2, 0);
    SlotAt([3, 4, 3, 4], 2, 2, 1);
    assert [3, 4, 3, 4][0..2] == [3, 4] && [3, 4, 3, 4][2..4] == [3, 4];
    assert Slots([3, 4, 3, 4], 2, 2)[0] == [3, 4] && Slots([3, 4, 3, 4], 2, 2)[1] == [3, 4];
    var whole := [1, 2, 3, 4, 5, 6];
    SlotAt(whole, 2, 3, 1);
    SlotAt(whole, 2, 3, 2);
    assert whole[2..4] == [3, 4] && whole[4..6] == [5, 6];
  }

  /** The evidently intended erase: copy `Offset(len - 1 - index, size)` bytes, i.e. every later
      slot, down by one slot. */
  function ClosedGap(bytes: seq<bv8>, size: nat, len: nat, index: nat): (r: seq<bv8>)
    requires index < len && Offset(len, size) <= |bytes|
    ensures |r| == |bytes|
  {
    OffsetAdd(index + 1, len - 1 - index, size);
    Moved(bytes, Offset(index + 1, size), Offset(index, size), Offset(len - 1 - index, size))
  }

  /** The intended erase leaves the live bytes in front of slot `index` followed by those after it. */
  lemma ClosedGapLiveBytes(bytes: seq<bv8>, size: nat, len: nat, index: nat)
    requires index < len && Offset(len, size) <= |bytes|
    ensures Offset(index + 1, size) <= Offset(len, size) && Offset(len - 1, size) <= |bytes|
    ensures ClosedGap(bytes, size, len, index)[..Offset(len - 1, size)]
         == bytes[..Offset(index, size)] + bytes[Offset(index + 1, size)..Offset(len, size)]
  {
    OffsetAdd(index + 1, len - 1 - index, size);
    OffsetAdd(index, len - 1 - index, size);
    var lo, count := Offset(index, size), Offset(len - 1 - index, size);
    assert Offset(index + 1, size) == lo + size;
    MovedClosesGap(bytes, lo, size, count);
  }

  /** After the intended erase the live range holds the old slots with slot `index` deleted. */
  lemma ClosedGapDeletesSlot(bytes: seq<bv8>, size: nat, len: nat, index: nat)
    requires index < len && Offset(len, size) <= |bytes|
    ensures Offset(len - 1, size) <= |bytes|
    ensures Slots(ClosedGap(bytes, size, len, index)[..Offset(len - 1, size)], size, len - 1)
         == Slots(bytes[..Offset(len, size)], size, len)[..index] + Slots(bytes[..Offset(len, size)], size, len)[index + 1..]
  {
    ClosedGapLiveBytes(bytes, size, len, index);
    var live := bytes[..Offset(len, size)];
    SlotsRemoveAt(live, size, len, index);
    assert live[..Offset(index, size)] + live[Offset(index + 1, size)..]
        == bytes[..Offset(index, size)] + bytes[Offset(index + 1, size)..Offset(len, size)];
  }
}
