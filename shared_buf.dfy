/** `xu::shared_buf`: a fixed number of bytes behind a shared pointer, a
    forward iterator over them, and the hex dump `print` writes.

    The shared pointer is a Dafny array: copying a `SharedBuf` copies the
    reference, so every copy reads and writes the same bytes.  A C++
    exception `std::out_of_range` is an `Err`/`Fail` value carrying the
    message the source throws. */
module Xu {
  import opened BufferFormat

  /** `std::out_of_range` with its `what()` message. */
  datatype Error = OutOfRange(what: string)

  const IndexError: Error := OutOfRange("shared_buf::operator[] : index out of range")
  const DerefError: Error := OutOfRange("shared_buf::iterator::operator* : invalid")

  /** The outcome of a read through `operator[]` or `operator*`. */
  datatype Result<T> = Ok(value: T) | Err(error: Error)

  /** The outcome of a write through the reference they return. */
  datatype Outcome = Pass | Fail(error: Error)

  // ---------------------------------------------------------------
  // Iterator positions
  // ---------------------------------------------------------------

  /** The position after one `++` over `size` bytes: one further while
      before the end, unchanged at (or past) the end. */
  function Step(i: nat, size: nat): (j: nat)
    ensures i <= j <= i + 1
    ensures i <= size ==> j <= size
    ensures j == i <==> size <= i
  {
    if i < size then i + 1 else i
  }

  /** The position after `k` applications of `++`. */
  function Steps(i: nat, size: nat, k: nat): nat
    decreases k
  {
    if k == 0 then i else Steps(Step(i, size), size, k - 1)
  }

  /** From a position within the buffer, `k` increments advance `k` places
      but never past the end. */
  lemma {:induction false} StepsSaturate(i: nat, size: nat, k: nat)
    requires i <= size
    ensures Steps(i, size, k) == if i + k <= size then i + k else size
    decreases k
  {
    if k > 0 {
      StepsSaturate(Step(i, size), size, k - 1);
    }
  }

  /** `size` increments lead from `begin()` to `end()`, and more leave it there. */
  lemma BeginReachesEnd(size: nat, k: nat)
    ensures Steps(0, size, size) == size
    ensures size <= k ==> Steps(0, size, k) == size
    ensures k < size ==> Steps(0, size, k) == k
  {
    StepsSaturate(0, size, size);
    StepsSaturate(0, size, k);
  }

  // ---------------------------------------------------------------
  // The buffer
  // ---------------------------------------------------------------

  class SharedBuf {
    /** The shared storage (`std::shared_ptr<uint8_t[]> ptr`). */
    var ptr: array<byte>
    /** The number of bytes (`size_t size`). */
    var size: nat

    /** The storage holds exactly `size` bytes. */
    ghost predicate Valid()
      reads this
    {
      ptr.Length == size
    }

    /** `shared_buf(size_)`: fresh storage of exactly `size_` bytes, whose
        contents are left unspecified. */
    constructor (size_: nat)
      ensures Valid() && size == size_ && fresh(ptr)
    {
      size := size_;
      ptr := new byte[size_];
    }

    /** The implicit copy constructor: the copy shares the storage. */
    constructor Copy(other: SharedBuf)
      requires other.Valid()
      ensures Valid() && ptr == other.ptr && size == other.size
    {
      ptr := other.ptr;
      size := other.size;
    }

    /** `operator[](i)` read: the byte at `i`, or out_of_range when `i >= size`. */
    function Get(i: nat): (r: Result<byte>)
      requires Valid()
      reads this, ptr
      ensures r.Ok? <==> i < size
      ensures r.Ok? ==> r.value == ptr[i]
      ensures r.Err? ==> r.error == IndexError
    {
      if i < size then Ok(ptr[i]) else Err(IndexError)
    }

    /** `operator[](i) = v`: stores `v` at `i` in the shared storage, or
        fails with out_of_range when `i >= size` and changes nothing. */
    method Set(i: nat, v: byte) returns (r: Outcome)
      requires Valid()
      modifies ptr
      ensures r.Pass? <==> i < size
      ensures r.Fail? ==> r.error == IndexError
      ensures ptr[..] == if i < size then old(ptr[..])[i := v] else old(ptr[..])
    {
      if i < size {
        ptr[i] := v;
        r := Pass;
      } else {
        r := Fail(IndexError);
      }
    }

    /** `begin()`: an iterator at position 0 over this storage. */
    method Begin() returns (it: Iterator)
      requires Valid()
      ensures fresh(it) && it.Valid()
      ensures it.base == ptr && it.size == size && it.i == 0
      ensures size > 0 ==> it.Read() == Ok(ptr[0])
    {
      it := new Iterator(ptr, size);
    }

    /** `end()`: the iterator at position `size`, which never dereferences. */
    method End() returns (it: Iterator)
      requires Valid()
      ensures fresh(it) && it.Valid()
      ensures it.base == ptr && it.size == size && it.i == size
      ensures it.Read() == Err(DerefError)
    {
      it := new Iterator(ptr, size, size);
    }

    /** `print(stream)`: appends the hex dump of the bytes to `stream`; the
        buffer is not changed. */
    method Print(stream: string) returns (out: string)
      requires Valid()
      ensures out == stream + Format(ptr[..])
    {
      out := stream + "[";
      var i := 0;
      while i < size
        invariant i <= size
        invariant out == stream + "[" + Items(ptr[..i])
      {
        if i != 0 {
          out := out + ",";
        }
        out := out + Hex(ptr[i] as nat) + "h";
        assert ptr[..i + 1][..i] == ptr[..i];
        if i != 0 {
          ItemsSnoc(ptr[..i + 1]);
        }
        i := i + 1;
      }
      assert ptr[..size] == ptr[..];
      out := out + "]";
    }
  }

  /** The free `operator<<(stream, buf)`: what `buf.print(stream)` writes. */
  method WriteTo(stream: string, buf: SharedBuf) returns (out: string)
    requires buf.Valid()
    ensures out == stream + Format(buf.ptr[..])
  {
    out := buf.Print(stream);
  }

  // ---------------------------------------------------------------
  // The iterator
  // ---------------------------------------------------------------

  /** `shared_buf::iterator`: a raw base pointer, the size it was made with
      and a position. */
  class Iterator {
    var base: array<byte>
    var size: nat
    var i: nat

    /** `base` points at `size` bytes, as every caller of the constructor
        must ensure (`begin()` and `end()` do). */
    ghost predicate Valid()
      reads this
    {
      size <= base.Length
    }

    /** `iterator(base_ptr_, size_, i_ = 0)`; the position is not checked. */
    constructor (base_: array<byte>, size_: nat, i_: nat := 0)
      ensures base == base_ && size == size_ && i == i_
    {
      base := base_;
      size := size_;
      i := i_;
    }

    /** The copy constructor: all three fields copied. */
    constructor Copy(other: Iterator)
      ensures base == other.base && size == other.size && i == other.i
    {
      base := other.base;
      size := other.size;
      i := other.i;
    }

    /** `operator=`: overwrites all three fields with those of `other`. */
    method Assign(other: Iterator)
      modifies this
      ensures base == old(other.base) && size == old(other.size) && i == old(other.i)
    {
      base, size, i := other.base, other.size, other.i;
    }

    /** Pre-increment `++it`: one position further, saturating at `size`. */
    method Increment()
      modifies this`i
      ensures i == Step(old(i), size)
    {
      if i < size {
        i := i + 1;
      }
    }

    /** Post-increment `it++`: a copy of the iterator as it was, while the
        iterator itself advances as `++it` does. */
    method PostIncrement() returns (res: Iterator)
      modifies this`i
      ensures fresh(res)
      ensures res.base == base && res.size == size && res.i == old(i)
      ensures i == Step(old(i), size)
    {
      res := new Iterator.Copy(this);
      Increment();
    }

    /** `operator==`: field-wise equality. */
    predicate Equals(other: Iterator): (r: bool)
      reads this, other
      ensures other == this ==> r
      ensures r ==> Step(i, size) == Step(other.i, other.size)
    {
      base == other.base && size == other.size && i == other.i
    }

    /** `operator!=`, written in the source as a disjunction of differences;
        it is exactly the negation of `operator==`. */
    predicate NotEquals(other: Iterator): (r: bool)
      reads this, other
      ensures r <==> !Equals(other)
    {
      base != other.base || size != other.size || i != other.i
    }

    /** `*it` read: the byte at the position, or out_of_range at the end. */
    function Read(): (r: Result<byte>)
      requires Valid()
      reads this, base
      ensures r.Ok? <==> i < size
      ensures r.Ok? ==> r.value == base[i]
      ensures r.Err? ==> r.error == DerefError
    {
      if i < size then Ok(base[i]) else Err(DerefError)
    }

    /** `*it = v`: stores `v` at the position, or fails with out_of_range at
        the end and changes nothing. */
    method Write(v: byte) returns (r: Outcome)
      requires Valid()
      modifies base
      ensures r.Pass? <==> i < size
      ensures r.Fail? ==> r.error == DerefError
      ensures base[..] == if i < size then old(base[..])[i := v] else old(base[..])
    {
      if i < size {
        base[i] := v;
        r := Pass;
      } else {
        r := Fail(DerefError);
      }
    }
  }

  /** Equality of iterators is an equivalence relation. */
  lemma EqualsIsEquivalence(a: Iterator, b: Iterator, c: Iterator)
    ensures a.Equals(a)
    ensures a.Equals(b) ==> b.Equals(a)
    ensures a.Equals(b) && b.Equals(c) ==> a.Equals(c)
  {
  }
}
