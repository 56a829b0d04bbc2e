# shared_buf in Dafny

A model of `xu::shared_buf` (include/shared_buf.hpp): a fixed number of bytes
held behind a `std::shared_ptr<uint8_t[]>`, a forward iterator over them, and
the hex dump that `print` and `operator<<` write.

- `format.dfy` (module `BufferFormat`): the text form of the dump as pure
  functions. `Hex` gives the digits `std::hex` writes for an `int`. `Item` is
  one element `<digits>h`. `Items` joins the elements with commas, one byte at
  a time at the end, as the loop in `print` does. `Format` adds the brackets.
  `Decode` reads a dump back. Its round trip `DecodeFormat` shows that no two
  byte sequences print alike.
- `shared_buf.dfy` (module `Xu`): class `SharedBuf` with the fields `ptr` and
  `size`. The shared pointer is a Dafny `array<byte>`, so a copy shares the
  array and sees every write made through any other copy. Class `Iterator`
  has the fields `base`, `size` and `i`, updated in place by `++` and `=`.
  `Step` and `Steps` give the position after one or several increments.
  `WriteTo` is the free `operator<<`.
- `driver.dfy` (module `Driver`): the steps of test/test_shared_buf.cpp up to
  the move. It fills the buffer through its iterators, copies it, and writes
  through the copy. It proves the two strings the first and second prints
  produce.
- `samples.dfy` (module `DumpSamples`): those two strings, worked out
  element by element in stages of a few elements each.
- `const_index.dfy` (module `ConstIndex`): the const `operator[]` as written
  (see Findings).

`operator[]` and `operator*` return a mutable reference. Each is modelled as
two members: a read (`Get`, `Read`) returning `Ok(byte)` or
`Err(OutOfRange(what))`, and a write through the reference (`Set`, `Write`)
returning `Pass` or `Fail(OutOfRange(what))`. The `what` messages are the
ones the source throws. An `ostream` is modelled as the string written so far.

A copy shares `ptr` with the original (include/shared_buf.hpp:207), so after
`buf_copy[2] = 0` the original prints `0h` at position 2;
`Driver.Demonstration` proves this. The code has no bulk advance, no iterator
distance, no read-only iterator and no move that resets a buffer to size 0, so
none is modelled.

## Model

| member | source | states |
|---|---|---|
| `BufferFormat.Hex` | include/shared_buf.hpp:183-192 | a byte's digits are lowercase hex digits, at least one, with no leading zero; exactly one digit iff the value is below 16 |
| `BufferFormat.HexValueOfHex` | include/shared_buf.hpp:192 | the digits denote exactly the number written, so no value is lost |
| `BufferFormat.HexOfByte` | include/shared_buf.hpp:192 | with no width, a byte prints as one digit below 16 and as two digits from 16 on |
| `BufferFormat.Item` | include/shared_buf.hpp:192 | each element ends in the suffix `h` with at least one character before it |
| `BufferFormat.ItemReadsBack` | include/shared_buf.hpp:192 | the part of an element before `h` is lowercase hex digits; an element holds no comma and decodes back to its byte |
| `BufferFormat.Items` | include/shared_buf.hpp:185-193 | the comma-separated body is empty exactly when the buffer is |
| `BufferFormat.Format` | include/shared_buf.hpp:183-195 | the dump is bracketed by `[` and `]`, and it is `[]` exactly for an empty buffer |
| `BufferFormat.DecodeFormat` | include/shared_buf.hpp:178-200 | reading a dump back gives exactly the bytes that were printed |
| `BufferFormat.FormatInjective` | include/shared_buf.hpp:178-200 | two buffers print the same text only if they hold the same bytes |
| `BufferFormat.HexSamples` | include/shared_buf.hpp:183-195 | 0 prints as `0`, 10 as `a`, 255 as `ff`; the empty buffer prints `[]` |
| `BufferFormat.FormatSamples` | include/shared_buf.hpp:183-195 | bytes 1,2,3 print `[1h,2h,3h]` |
| `BufferFormat.FormatSamplesWide` | include/shared_buf.hpp:183-195 | bytes 0,10,255 print `[0h,ah,ffh]`: no padding, lowercase letters |
| `Xu.Step` | include/shared_buf.hpp:76-83 | one increment moves at most one place and never backwards; it stays within the size; it is a no-op exactly at or past the end |
| `Xu.StepsSaturate` | include/shared_buf.hpp:76-83 | from a position within the buffer, k increments move min(k, size - position) places |
| `Xu.BeginReachesEnd` | include/shared_buf.hpp:119-127 | `size` increments from `begin()`'s position reach `end()`'s position; more increments leave it there; fewer reach position k |
| `Xu.SharedBuf.constructor` | include/shared_buf.hpp:138-142 | the new buffer has `size == size_` and fresh storage of exactly `size_` bytes, with no claim about their values |
| `Xu.SharedBuf.Copy` | include/shared_buf.hpp:207-208 | the implicit copy shares the same storage and copies the size |
| `Xu.SharedBuf.Get` | include/shared_buf.hpp:151-161 | reading index i succeeds iff i < size and then gives `ptr[i]`; otherwise it fails with the index out_of_range message |
| `Xu.SharedBuf.Set` | include/shared_buf.hpp:151-161 | a write through `operator[]` succeeds iff i < size; it changes only byte i, and on failure it changes nothing |
| `Xu.SharedBuf.Begin` | include/shared_buf.hpp:119-122 | `begin()` is over the buffer's storage and size, at position 0; on a non-empty buffer it dereferences to the first byte |
| `Xu.SharedBuf.End` | include/shared_buf.hpp:124-127 | `end()` is over the same storage and size, at position `size`; dereferencing it always fails |
| `Xu.SharedBuf.Print` | include/shared_buf.hpp:178-200 | appends exactly `Format` of the bytes to the stream; it may modify nothing (no modifies clause) |
| `Xu.WriteTo` | include/shared_buf.hpp:212-215 | `stream << buf` appends what `buf.print` writes |
| `Xu.Iterator.constructor` | include/shared_buf.hpp:53-60 | the iterator takes the given base, size and position (default 0), unchecked |
| `Xu.Iterator.Copy` | include/shared_buf.hpp:62-66 | the copy has the same three fields |
| `Xu.Iterator.Assign` | include/shared_buf.hpp:68-74 | assignment overwrites all three fields with the other iterator's values, also when the other is the same object |
| `Xu.Iterator.Increment` | include/shared_buf.hpp:76-83 | `++` changes only the position, to `Step` of the old one: +1 before the end, unchanged at the end |
| `Xu.Iterator.PostIncrement` | include/shared_buf.hpp:85-90 | `it++` returns a new iterator with the old base, size and position, and advances `it` as `++` would |
| `Xu.Iterator.NotEquals` | include/shared_buf.hpp:99-104 | `!=`, written as a disjunction of field differences, is exactly the negation of the field-wise `==` |
| `Xu.Iterator.Equals` | include/shared_buf.hpp:92-97 | `==` compares base, size and position; it holds of an iterator and itself, and iterators it calls equal take the same next position under `++` |
| `Xu.EqualsIsEquivalence` | include/shared_buf.hpp:92-97 | field-wise `==` is reflexive, symmetric and transitive |
| `Xu.Iterator.Read` | include/shared_buf.hpp:106-116 | dereferencing succeeds iff the position is below the size and then gives `base[i]`; otherwise it fails with the operator* out_of_range message |
| `Xu.Iterator.Write` | include/shared_buf.hpp:106-116 | a write through `*it` succeeds iff the position is below the size; it changes only that byte, and on failure it changes nothing |
| `Driver.FillCounting` | test/test_shared_buf.cpp:32-36 | the range-for loop from `begin()` to `end()` visits every position once, in order, and stores the counter truncated to a byte: position k holds (k+1) mod 256 |
| `Driver.CopyThenWrite` | test/test_shared_buf.cpp:40-42 | a copy shares the storage; writing byte i through the copy changes byte i of the original and nothing else |
| `Driver.Demonstration` | test/test_shared_buf.cpp:30-46 | the filled ten-byte buffer prints `[1h,2h,3h,4h,5h,6h,7h,8h,9h,ah]`; after `buf_copy[2] = 0` the original prints `[1h,2h,0h,4h,5h,6h,7h,8h,9h,ah]` |
| `DumpSamples.FormatOneToTen` | test/test_shared_buf.cpp:38 | the bytes 1 to 10 print `[1h,2h,3h,4h,5h,6h,7h,8h,9h,ah]` |
| `DumpSamples.FormatAfterWrite` | test/test_shared_buf.cpp:46 | the bytes 1 to 10 with byte 2 set to zero print `[1h,2h,0h,4h,5h,6h,7h,8h,9h,ah]` |
| `ConstIndex.ConstGetNeverReturns` | include/shared_buf.hpp:170-173 | the const `operator[]` as written returns neither a byte nor an error, whatever the stack depth |

## Left out

- Move construction: the class declares no move constructor. The implicit one would null `ptr` and keep `size`, so printing a moved-from buffer (test/test_shared_buf.cpp:44-47) reads through a null pointer. Nothing about a moved-from buffer is modelled.
- The implicit copy assignment of `shared_buf` is not modelled; the implicit copy constructor is.
- `shared_ptr` reference counting and release of the storage: Dafny's heap has no deallocation, so sharing is modelled only as two buffers referring to one array.
- Allocation failure (`std::bad_alloc` from `new uint8_t[size]`) is not modelled.
- Initial contents: Dafny arrays start with default values, but no contract states any initial byte value.
- `size_t` width: sizes and positions are unbounded naturals. No arithmetic in this code can wrap, because the only increment happens below `size`.
- Saving, resetting and restoring the stream's format flags (include/shared_buf.hpp:180-181, 197) is stream state and is not modelled; a stream is the string written so far.
- A reference returned by `operator[]` or `operator*` and kept for later use is not modelled: each read or write is one call.
- The return of `*this` by `iterator::operator=` and `operator++` (used for chaining) is not modelled.
- Xu.Iterator.Read: requires `size <= base.Length`. The source cannot check that its raw `base_ptr` points at `size` bytes; `begin()` and `end()` guarantee it.
- Xu.Iterator.Write: requires `size <= base.Length`, for the same reason as `Read`.

## Findings

| source | as written | input that shows it | evidently intended | confidence | as-written member | corrected member |
|---|---|---|---|---|---|---|
| include/shared_buf.hpp:170-173 | the const `operator[](i)` returns `operator[](i)`; on a const object this resolves to the const overload itself, so it recurses without end | any const buffer and any index, e.g. index 0 of a one-byte buffer | a bounds-checked read: the byte below `size`, out_of_range from `size` on | high; not executed | `ConstIndex.ConstGetAsWritten` with `ConstIndex.ConstGetNeverReturns` | `Xu.SharedBuf.Get` |
