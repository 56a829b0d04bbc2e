/** The demonstration program's use of `shared_buf`: fill a buffer through
    its iterators, copy it, write through the copy, and print. */
module Driver {
  import opened BufferFormat
  import opened Xu
  import opened DumpSamples

  /** `for (auto& b : buf) b = ++counter;` with an `int` counter: the loop
      runs from `begin()` until the iterator equals `end()`, and each store
      truncates the counter to a byte. */
  method FillCounting(buf: SharedBuf)
    requires buf.Valid()
    modifies buf.ptr
    ensures forall k :: 0 <= k < buf.size ==> buf.ptr[k] as int == (k + 1) % 0x100
  {
    var counter := 0;
    var it := buf.Begin();
    var last := buf.End();
    while it.NotEquals(last)
      invariant it.Valid() && it.base == buf.ptr && it.size == buf.size
      invariant last.base == buf.ptr && last.size == buf.size && last.i == buf.size
      invariant it.i <= buf.size && counter == it.i
      invariant forall k :: 0 <= k < it.i ==> buf.ptr[k] as int == (k + 1) % 0x100
      decreases buf.size - it.i
    {
      counter := counter + 1;
      var _ := it.Write((counter % 0x100) as byte);
      it.Increment();
    }
  }

  /** `shared_buf buf_copy = buf; buf_copy[i] = v;`: the write through the
      copy is a write to the original's bytes, at `i` only. */
  method CopyThenWrite(buf: SharedBuf, i: nat, v: byte) returns (copy: SharedBuf)
    requires buf.Valid()
    modifies buf.ptr
    ensures fresh(copy) && copy.Valid() && copy.ptr == buf.ptr && copy.size == buf.size
    ensures buf.ptr[..] == if i < buf.size then old(buf.ptr[..])[i := v] else old(buf.ptr[..])
    ensures buf.Get(i) == if i < buf.size then Ok(v) else Err(IndexError)
  {
    copy := new SharedBuf.Copy(buf);
    var _ := copy.Set(i, v);
  }

  /** The demonstration up to the move: a ten-byte buffer filled with 1..10
      prints `[1h,...,ah]`; after `buf_copy[2] = 0` the original prints the
      zero too, because it shares the copy's storage. */
  method Demonstration() returns (filled: string, afterCopyWrite: string)
    ensures filled == "[1h,2h,3h,4h,5h,6h,7h,8h,9h,ah]"
    ensures afterCopyWrite == "[1h,2h,0h,4h,5h,6h,7h,8h,9h,ah]"
  {
    var buf := new SharedBuf(10);
    FillCounting(buf);
    assert buf.ptr[..] == OneToTen;
    filled := WriteTo("", buf);
    FormatOneToTen();
    var copy := CopyThenWrite(buf, 2, 0);
    assert buf.ptr[..] == AfterWrite;
    afterCopyWrite := WriteTo("", buf);
    FormatAfterWrite();
  }
}
