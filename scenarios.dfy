/** The repository's own unit tests, replayed against the model: each method builds a vector,
    runs the same calls and checks the same results (and, where the model says more, the
    capacity too). `i32` values are written as their four little-endian bytes. */
module Scenarios {
  import opened Outcomes
  import opened Bytes
  import opened ErasedVecs

  const I32: TypeTag := 1
  const FooType: TypeTag := 2
  const U64: TypeTag := 3

  /** `test_i32`: three pushes into room for four, reads back, one read past the end, then
      three more pushes that force one doubling. */
  method TestI32()
  {
    var v := new ErasedVec.WithCapacity(I32, 4, 4, 4);
    var r := v.Push(I32, [4, 0, 0, 0]);
    r := v.Push(I32, [12, 0, 0, 0]);
    r := v.Push(I32, [36, 0, 0, 0]);
    assert v.Elements() == [[4, 0, 0, 0], [12, 0, 0, 0], [36, 0, 0, 0]];
    assert v.Get(I32, 0) == Done(Some([4, 0, 0, 0]));
    assert v.Get(I32, 1) == Done(Some([12, 0, 0, 0]));
    assert v.Get(I32, 2) == Done(Some([36, 0, 0, 0]));
    assert v.Get(I32, 3) == Done(None);
    r := v.Push(I32, [64, 0, 0, 0]);
    assert v.cap == 4;
    r := v.Push(I32, [64, 0, 0, 0]);
    r := v.Push(I32, [64, 0, 0, 0]);
    assert v.Len() == 6 && v.cap == 8;
    assert v.Elements()[5] == [64, 0, 0, 0];
    OffsetIsProduct(8, 4);
    assert v.DropDeallocation() == Some(MemLayout(32, 4));
  }

  /** `test_struct`: two 24-byte records, 8-aligned, read back in order. */
  method TestStruct(foo1: seq<bv8>, foo2: seq<bv8>)
    requires |foo1| == 24 && |foo2| == 24
  {
    var v := new ErasedVec.WithCapacity(FooType, 24, 8, 16);
    var r := v.Push(FooType, foo1);
    r := v.Push(FooType, foo2);
    assert v.Elements() == [foo1, foo2];
    assert v.Get(FooType, 0) == Done(Some(foo1));
    assert v.Get(FooType, 1) == Done(Some(foo2));
  }

  /** `test_zero_cap`: pushing into a vector that never allocated. The first growth goes to two
      slots, not one. */
  method TestZeroCap()
  {
    var v := new ErasedVec.New(I32, 4, 4);
    assert v.DropDeallocation() == None;
    var r := v.Push(I32, [4, 0, 0, 0]);
    assert v.cap == 2;
    r := v.Push(I32, [12, 0, 0, 0]);
    assert v.cap == 2;
    assert v.Get(I32, 0) == Done(Some([4, 0, 0, 0]));
    assert v.Get(I32, 1) == Done(Some([12, 0, 0, 0]));
  }

  /** `test_pop` and `test_pop_empty`. */
  method TestPop()
  {
    var v := new ErasedVec.New(I32, 4, 4);
    var r := v.Push(I32, [42, 0, 0, 0]);
    r := v.Push(I32, [68, 0, 0, 0]);
    r := v.Pop();
    assert v.Get(I32, 1) == Done(None);
    assert v.Len() == 1;
    assert v.Get(I32, 0) == Done(Some([42, 0, 0, 0]));
    r := v.Pop();
    assert v.Len() == 0;
    r := v.Pop();
    assert r == Panicked(PopOnEmpty);
    var w := new ErasedVec.New(I32, 4, 4);
    r := w.Pop();
    assert r == Panicked(PopOnEmpty) && w.Len() == 0;
  }

  /** `test_remove`: the only element comes back out, and the vector is empty. Removing again
      is out of bounds. */
  method TestRemove(foo: seq<bv8>)
    requires |foo| == 24
  {
    var v := new ErasedVec.New(FooType, 24, 8);
    var p := v.Push(FooType, foo);
    var r := v.Remove(24, 0);
    assert r == Done(foo);
    assert v.Len() == 0;
    r := v.Remove(24, 0);
    assert r == Panicked(IndexOutOfBounds);
  }

  /** `remove` does not check its type: with a one-byte `T` on two-byte elements it returns
      only the first byte of the slot, and still erases the element. */
  method TestRemoveUnchecked()
  {
    var v := new ErasedVec.WithCapacity(FooType, 2, 2, 2);
    var p := v.Push(FooType, [1, 2]);
    p := v.Push(FooType, [3, 4]);
    var r := v.Remove(1, 1);
    assert r == Done([3]);
    assert v.Len() == 1;
  }

  /** `test_iter`: collecting the iterator gives the pushed values in order. */
  method TestIter()
  {
    var v := new ErasedVec.WithCapacity(I32, 4, 4, 4);
    var r := v.Push(I32, [4, 0, 0, 0]);
    r := v.Push(I32, [12, 0, 0, 0]);
    r := v.Push(I32, [36, 0, 0, 0]);
    assert v.Elements() == [[4, 0, 0, 0], [12, 0, 0, 0], [36, 0, 0, 0]];
    var all := Collect(v, I32);
    assert all == Done([[4, 0, 0, 0], [12, 0, 0, 0], [36, 0, 0, 0]]);
    var wrong := Collect(v, U64);
    assert wrong == Panicked(TypeMismatch);
  }

  /** A push of the wrong type panics and changes nothing; `get` and `into_vec` of the wrong
      type panic too. */
  method TestTypeMismatch()
  {
    var v := new ErasedVec.WithCapacity(I32, 4, 4, 1);
    var r := v.Push(I32, [7, 0, 0, 0]);
    r := v.Push(U64, [1, 2, 3, 4, 5, 6, 7, 8]);
    assert r == Panicked(TypeMismatch);
    assert v.Elements() == [[7, 0, 0, 0]] && v.cap == 1;
    assert v.Get(U64, 0) == Panicked(TypeMismatch);
    assert v.IntoVec(U64) == Panicked(TypeMismatch);
    assert v.IntoVec(I32) == Done([]);
  }

  /** A clone owns its own buffer: pushing to it leaves the original as it was. */
  method TestCloneIndependent()
  {
    var v := new ErasedVec.WithCapacity(I32, 4, 4, 2);
    var r := v.Push(I32, [4, 0, 0, 0]);
    var c := v.Clone();
    assert c.Elements() == [[4, 0, 0, 0]];
    r := c.Push(I32, [12, 0, 0, 0]);
    assert c.Elements() == [[4, 0, 0, 0], [12, 0, 0, 0]];
    assert v.Elements() == [[4, 0, 0, 0]];
  }

  /** Erasing the first of three one-byte elements with the code as written. */
  method TestEraseBytes()
  {
    var v := new ErasedVec.WithCapacity(FooType, 1, 1, 4);
    var r := v.Push(FooType, [10]);
    r := v.Push(FooType, [20]);
    r := v.Push(FooType, [30]);
    ghost var elements, before := v.Elements(), v.buf[..];
    assert elements == [[10], [20], [30]];
    v.Erase(0);
    EraseShiftUnitSize(before, 3, 0);
    assert v.Elements() == elements[1..];
  }
}
