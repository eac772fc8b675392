/** The type-erased growable array. The element type is fixed when the vector is built, as a
    runtime type token together with the element's byte size and alignment; every typed access
    compares its own token against it. Elements are stored as raw bytes, slot after slot, in one
    buffer of `cap * elementSize` bytes. */
module ErasedVecs {
  import opened Outcomes
  import opened Bytes
  import Memory

  /** A runtime type-identity token, the counterpart of `std::any::TypeId`. */
  type TypeTag = nat

  /** What `Layout::from_size_align` describes: a byte size and an alignment. */
  datatype MemLayout = MemLayout(size: nat, align: nat)

  class ErasedVec {
    /** The element type and its layout, fixed for the vector's lifetime. */
    const elementType: TypeTag
    const elementSize: nat
    const elementAlign: nat
    /** The allocation `ptr` points to: `Offset(cap, elementSize)` bytes. Allocation is `new`,
        deallocation does nothing. */
    var buf: array<bv8>
    /** Whether `ptr` is still the null pointer that `new` starts with. */
    var ptrIsNull: bool
    var len: nat
    var cap: nat

    ghost predicate Valid()
      reads this
    {
      && buf.Length == Offset(cap, elementSize)
      && len <= cap
      && Offset(len, elementSize) <= buf.Length
      && (ptrIsNull ==> cap == 0)
    }

    /** The bytes of the live elements, slots `0` to `len - 1`. */
    function Live(): (b: seq<bv8>)
      reads this, buf
      requires Valid()
      ensures |b| == Offset(len, elementSize)
    {
      buf[..Offset(len, elementSize)]
    }

    /** The live elements, each as its `elementSize` bytes. */
    function Elements(): (e: seq<seq<bv8>>)
      reads this, buf
      requires Valid()
      ensures |e| == len
    {
      Slots(Live(), elementSize, len)
    }

    /** `new::<T>()` and `new_in::<T>(allocator)`: no allocation, a null pointer, no elements. */
    constructor New(t: TypeTag, size: nat, align: nat)
      ensures Valid()
      ensures elementType == t && elementSize == size && elementAlign == align
      ensures len == 0 && cap == 0 && ptrIsNull && fresh(buf)
      ensures Elements() == []
    {
      elementType, elementSize, elementAlign := t, size, align;
      buf := new bv8[0];
      ptrIsNull := true;
      len, cap := 0, 0;
    }

    /** `with_capacity::<T>(capacity)` and `with_capacity_in`: room for exactly `capacity`
        elements, none of them live. */
    constructor WithCapacity(t: TypeTag, size: nat, align: nat, capacity: nat)
      ensures Valid()
      ensures elementType == t && elementSize == size && elementAlign == align
      ensures len == 0 && cap == capacity && !ptrIsNull && fresh(buf)
      ensures Elements() == []
    {
      elementType, elementSize, elementAlign := t, size, align;
      buf := new bv8[Offset(capacity, size)];
      ptrIsNull := false;
      len, cap := 0, capacity;
    }

    /** `grow`: from capacity 0 it first allocates one slot and, having no `return`, goes on to
        double that; otherwise it doubles. The whole old buffer is copied, live or not. */
    method Grow()
      requires Valid()
      modifies this
      ensures Valid() && fresh(buf) && !ptrIsNull
      ensures len == old(len)
      ensures cap == (if old(cap) == 0 then 2 else 2 * old(cap))
      ensures Offset(old(cap), elementSize) <= buf.Length && buf[..Offset(old(cap), elementSize)] == old(buf[..])
      ensures Elements() == old(Elements())
    {
      ghost var before := Live();
      if cap == 0 {
        buf := new bv8[Offset(1, elementSize)];
        ptrIsNull := false;
        cap := 1;
      }
      var oldSize := Offset(cap, elementSize);
      OffsetAdd(cap, cap, elementSize);
      var mem := new bv8[Offset(2 * cap, elementSize)];
      Memory.CopyNonoverlapping(buf, mem, oldSize);
      buf := mem;
      cap := 2 * cap;
      OffsetMono(len, cap, elementSize);
      OffsetMono(old(cap), cap, elementSize);
      OffsetMono(len, old(cap), elementSize);
      assert Live() == before;
    }

    /** `push::<T>(value)`: panics unless `T` is the element type; grows exactly when full; writes
        the value's bytes into slot `len` and counts it. */
    method Push(tag: TypeTag, value: seq<bv8>) returns (r: Outcome<()>)
      requires Valid()
      requires tag == elementType ==> |value| == elementSize
      modifies this, buf
      ensures Valid()
      ensures r == (if tag == elementType then Done(()) else Panicked(TypeMismatch))
      ensures r.Panicked? ==>
        len == old(len) && cap == old(cap) && ptrIsNull == old(ptrIsNull) && buf == old(buf) && buf[..] == old(buf[..])
      ensures r.Done? ==> len == old(len) + 1 && Live() == old(Live()) + value
      ensures r.Done? ==> Elements() == old(Elements()) + [value]
      ensures r.Done? && old(len) < old(cap) ==>
        cap == old(cap) && buf == old(buf) &&
        Offset(len, elementSize) <= buf.Length && buf[Offset(len, elementSize)..] == old(buf[Offset(len + 1, elementSize)..])
      ensures r.Done? && old(len) == old(cap) ==>
        cap == (if old(cap) == 0 then 2 else 2 * old(cap)) && fresh(buf) && !ptrIsNull
    {
      if tag != elementType {
        return Panicked(TypeMismatch);
      }
      ghost var before := Live();
      if len == cap {
        Grow();
      }
      OffsetMono(len, cap, elementSize);
      OffsetMono(len + 1, cap, elementSize);
      assert buf[..Offset(len, elementSize)] == before;
      Memory.WriteBytes(buf, Offset(len, elementSize), value);
      len := len + 1;
      r := Done(());
      assert Live() == before + value;
      SlotsAppend(before, value, elementSize, len - 1, 1);
      assert Slots(value, elementSize, 1) == [value];
    }

    /** `pop`: panics on an empty vector; otherwise forgets the last element. No byte and no
        capacity changes. */
    method Pop() returns (r: Outcome<()>)
      requires Valid()
      modifies this`len
      ensures Valid()
      ensures old(len) == 0 ==> r == Panicked(PopOnEmpty) && len == 0
      ensures old(len) > 0 ==> r == Done(()) && len == old(len) - 1
      ensures cap == old(cap) && buf == old(buf) && buf[..] == old(buf[..])
      ensures Elements() == old(Elements())[..len]
    {
      if len == 0 {
        return Panicked(PopOnEmpty);
      }
      ghost var before := Live();
      len := len - 1;
      OffsetMono(len, len + 1, elementSize);
      assert Live() == buf[..Offset(len, elementSize)] == before[..Offset(len, elementSize)];
      r := Done(());
    }

    /** `len`. */
    function Len(): (n: nat)
      reads this, buf
      requires Valid()
      ensures n == |Elements()|
    {
      len
    }

    /** `get::<T>(index)`: panics unless `T` is the element type; `None` past the end; otherwise
        the element's bytes. Reads only. */
    function Get(tag: TypeTag, index: nat): (r: Outcome<Option<seq<bv8>>>)
      reads this, buf
      requires Valid()
      ensures tag != elementType ==> r == Panicked(TypeMismatch)
      ensures tag == elementType && index >= len ==> r == Done(None)
      ensures tag == elementType && index < len ==> r == Done(Some(Elements()[index]))
    {
      if tag != elementType then Panicked(TypeMismatch)
      else if index >= len then Done(None)
      else
        SlotAt(Live(), elementSize, len, index);
        assert Elements()[index] == buf[Offset(index, elementSize)..Offset(index + 1, elementSize)];
        Done(Some(buf[Offset(index, elementSize)..Offset(index + 1, elementSize)]))
    }

    /** `erase(index)` as written: no bounds check; when `index < len - 1` it moves
        `len - 1 - index` bytes down by one slot; then it drops the length by one. `len == 0`
        underflows in the source, and a copy out of a zero-byte buffer is undefined, so both
        are excluded here. */
    method Erase(index: nat)
      requires Valid()
      requires len > 0
      requires index + 1 < len ==> elementSize > 0
      modifies this`len, buf
      ensures Valid() && len == old(len) - 1
      ensures buf[..] == EraseShift(old(buf[..]), elementSize, old(len), index)
      ensures Elements() == ErasedSlots(old(buf[..]), elementSize, old(len), index)
    {
      ghost var bytes, oldLen := buf[..], len;
      if index + 1 < len {
        EraseCopyInBounds(elementSize, len, index);
        Memory.Copy(buf, Offset(index + 1, elementSize), Offset(index, elementSize), len - 1 - index);
      }
      OffsetMono(len - 1, len, elementSize);
      len := len - 1;
      LiveShifted(bytes, oldLen, index);
    }

    /** After the shift and the length update, the live elements are the erased slots. */
    lemma LiveShifted(bytes: seq<bv8>, oldLen: nat, index: nat)
      requires Valid() && oldLen == len + 1 && Offset(oldLen, elementSize) <= |bytes|
      requires index + 1 < oldLen ==> elementSize > 0
      requires buf[..] == EraseShift(bytes, elementSize, oldLen, index)
      ensures Elements() == ErasedSlots(bytes, elementSize, oldLen, index)
    {
    }

    /** `remove::<T>(index)`: panics unless `index < len`; reads `size_of::<T>()` bytes, given
        here as `readSize`, at slot `index`, then erases as written. It never compares `T` with
        the element type, so a `T` of another size reads another byte range; a read past the
        end of the allocation is undefined and is excluded. */
    method Remove(readSize: nat, index: nat) returns (r: Outcome<seq<bv8>>)
      requires Valid()
      requires index + 1 < len ==> elementSize > 0
      requires index < len ==> Offset(index, elementSize) + readSize <= buf.Length
      modifies this`len, buf
      ensures Valid()
      ensures index >= old(len) ==> r == Panicked(IndexOutOfBounds) && len == old(len) && buf[..] == old(buf[..])
      ensures index < old(len) ==>
        r == Done(old(buf[Offset(index, elementSize)..Offset(index, elementSize) + readSize])) && len == old(len) - 1
      ensures index < old(len) && readSize == elementSize ==> r == Done(old(Elements())[index])
      ensures index < old(len) ==> buf[..] == EraseShift(old(buf[..]), elementSize, old(len), index)
      ensures index < old(len) ==> Elements() == ErasedSlots(old(buf[..]), elementSize, old(len), index)
    {
      if index >= len {
        return Panicked(IndexOutOfBounds);
      }
      SlotAt(Live(), elementSize, len, index);
      var val := buf[Offset(index, elementSize)..Offset(index, elementSize) + readSize];
      if readSize == elementSize {
        assert Offset(index + 1, elementSize) == Offset(index, elementSize) + elementSize;
        assert val == Elements()[index];
      }
      Erase(index);
      r := Done(val);
    }

    /** The evidently intended `erase`: every slot after `index` moves down by one whole slot,
        so the element at `index` is deleted and the others keep their order. */
    method EraseIntended(index: nat)
      requires Valid()
      requires index < len
      modifies this`len, buf
      ensures Valid() && len == old(len) - 1
      ensures buf[..] == ClosedGap(old(buf[..]), elementSize, old(len), index)
      ensures Elements() == old(Elements())[..index] + old(Elements())[index + 1..]
    {
      ghost var bytes, oldLen, before := buf[..], len, Elements();
      assert before == Slots(bytes[..Offset(len, elementSize)], elementSize, len);
      OffsetAdd(index + 1, len - 1 - index, elementSize);
      OffsetAdd(index, len - 1 - index, elementSize);
      Memory.Copy(buf, Offset(index + 1, elementSize), Offset(index, elementSize), Offset(len - 1 - index, elementSize));
      OffsetMono(len - 1, len, elementSize);
      len := len - 1;
      LiveClosed(bytes, oldLen, index);
    }

    /** After the intended shift and the length update, slot `index` of `bytes` is gone. */
    lemma LiveClosed(bytes: seq<bv8>, oldLen: nat, index: nat)
      requires Valid() && oldLen == len + 1 && index < oldLen && Offset(oldLen, elementSize) <= |bytes|
      requires buf[..] == ClosedGap(bytes, elementSize, oldLen, index)
      ensures Elements() == Slots(bytes[..Offset(oldLen, elementSize)], elementSize, oldLen)[..index]
                          + Slots(bytes[..Offset(oldLen, elementSize)], elementSize, oldLen)[index + 1..]
    {
      assert Live() == buf[..][..Offset(len, elementSize)];
      ClosedGapDeletesSlot(bytes, elementSize, oldLen, index);
    }

    /** `remove` over the intended `erase`: the element at `index` comes back and is deleted. */
    method RemoveIntended(index: nat) returns (r: Outcome<seq<bv8>>)
      requires Valid()
      modifies this`len, buf
      ensures Valid()
      ensures index >= old(len) ==> r == Panicked(IndexOutOfBounds) && len == old(len) && buf[..] == old(buf[..])
      ensures index < old(len) ==> r == Done(old(Elements())[index])
      ensures index < old(len) ==> Elements() == old(Elements())[..index] + old(Elements())[index + 1..]
    {
      if index >= len {
        return Panicked(IndexOutOfBounds);
      }
      SlotAt(Live(), elementSize, len, index);
      var val := buf[Offset(index, elementSize)..Offset(index + 1, elementSize)];
      assert val == Elements()[index];
      EraseIntended(index);
      r := Done(val);
    }

    /** `into_vec::<T>()` as written: panics unless `T` is the element type; copies the live bytes
        into the spare capacity of a fresh `Vec` but never sets its length, so the `Vec` it
        returns is always empty. */
    function IntoVec(tag: TypeTag): (r: Outcome<seq<seq<bv8>>>)
      reads this
      ensures tag != elementType ==> r == Panicked(TypeMismatch)
      ensures tag == elementType ==> r == Done([])
    {
      if tag != elementType then Panicked(TypeMismatch) else Done([])
    }

    /** The evidently intended `into_vec`: the copied elements, with the length set to `len`. */
    function IntoVecIntended(tag: TypeTag): (r: Outcome<seq<seq<bv8>>>)
      reads this, buf
      requires Valid()
      ensures tag != elementType ==> r == Panicked(TypeMismatch)
      ensures tag == elementType ==>
        r.Done? && |r.value| == Len() && forall i :: 0 <= i < |r.value| ==> Get(tag, i) == Done(Some(r.value[i]))
    {
      if tag != elementType then Panicked(TypeMismatch) else Done(Elements())
    }

    /** `iter::<T>()`: an iterator over this vector starting at index 0. */
    method Iter(tag: TypeTag) returns (it: IntoIter)
      ensures fresh(it) && it.vec == this && it.tag == tag && it.i == 0
    {
      it := new IntoIter(this, tag);
    }

    /** `clone`: a fresh buffer of the same capacity holding a copy of the live bytes, and the
        same type, layout, length and capacity. Copying from the null pointer of a vector that
        never allocated is undefined in the source, so that case is excluded. */
    method Clone() returns (c: ErasedVec)
      requires Valid()
      requires !ptrIsNull
      ensures fresh(c) && fresh(c.buf) && c.Valid()
      ensures c.elementType == elementType && c.elementSize == elementSize && c.elementAlign == elementAlign
      ensures c.len == len && c.cap == cap && !c.ptrIsNull
      ensures c.Live() == Live() && c.Elements() == Elements()
    {
      var mem := new bv8[Offset(cap, elementSize)];
      OffsetMono(len, cap, elementSize);
      Memory.CopyNonoverlapping(buf, mem, Offset(len, elementSize));
      c := new ErasedVec.New(elementType, elementSize, elementAlign);
      c.buf, c.ptrIsNull, c.len, c.cap := mem, false, len, cap;
    }

    /** `drop`: the layout handed back to the allocator, if any. A buffer is returned exactly when
        the capacity is positive, and it is the whole buffer the vector owns. */
    function DropDeallocation(): (r: Option<MemLayout>)
      reads this
      requires Valid()
      ensures r.Some? <==> cap > 0
      ensures r.Some? ==> r.value == MemLayout(buf.Length, elementAlign)
    {
      if cap > 0 then Some(MemLayout(Offset(cap, elementSize), elementAlign)) else None
    }
  }

  /** `IntoIter`: walks a vector by index, asking `get` at every step. */
  class IntoIter {
    const vec: ErasedVec
    const tag: TypeTag
    var i: nat

    constructor (vec: ErasedVec, tag: TypeTag)
      ensures this.vec == vec && this.tag == tag && i == 0
    {
      this.vec, this.tag, i := vec, tag, 0;
    }

    /** `next`: `get(i)`, and then the index moves on; a panicking `get` never reaches the
        increment. */
    method Next() returns (r: Outcome<Option<seq<bv8>>>)
      requires vec.Valid()
      modifies this`i
      ensures r == vec.Get(tag, old(i))
      ensures i == (if r.Panicked? then old(i) else old(i) + 1)
    {
      r := vec.Get(tag, i);
      if r.Done? {
        i := i + 1;
      }
    }
  }

  /** Runs a fresh iterator to its first `None`, as `iter::<T>().collect()` does: the result is
      every element in order, or the type-mismatch panic. */
  method Collect(v: ErasedVec, tag: TypeTag) returns (r: Outcome<seq<seq<bv8>>>)
    requires v.Valid()
    ensures tag != v.elementType ==> r == Panicked(TypeMismatch)
    ensures tag == v.elementType ==> r == Done(v.Elements())
  {
    var it := v.Iter(tag);
    var out: seq<seq<bv8>> := [];
    while true
      invariant it.vec == v && it.tag == tag
      invariant it.i <= v.len
      invariant out == v.Elements()[..it.i]
      decreases v.len - it.i
    {
      ghost var k := it.i;
      var x := it.Next();
      match x {
        case Panicked(p) =>
          return Panicked(p);
        case Done(None) =>
          assert k == v.len;
          assert out == v.Elements()[..k];
          assert out == v.Elements();
          return Done(out);
        case Done(Some(e)) =>
          out := out + [e];
      }
    }
  }

  /** The as-written `into_vec` loses every element that the intended one returns. */
  lemma IntoVecDropsElements(v: ErasedVec)
    requires v.Valid() && v.len > 0
    ensures v.IntoVec(v.elementType) == Done([])
    ensures v.IntoVecIntended(v.elementType) != v.IntoVec(v.elementType)
  {
  }
}
