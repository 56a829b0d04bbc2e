/** The const-qualified `operator[]` as written.  Its body calls
    `operator[](i)` on a const object; the only viable overload there is the
    const one itself, so the call never reaches the bounds-checked accessor
    and instead recurses until the stack is exhausted.  `depth` stands for
    the stack frames available; `None` means the stack ran out. */
module ConstIndex {
  import opened BufferFormat
  import opened Xu

  /** The const `operator[](i)` as written: each call spends one frame and
      calls itself with the same index. */
  function ConstGetAsWritten(buf: SharedBuf, i: nat, depth: nat): Option<Result<byte>>
    decreases depth
  {
    if depth == 0 then None else ConstGetAsWritten(buf, i, depth - 1)
  }

  /** Whatever the buffer, the index and the stack depth, the const accessor
      as written never produces a byte or an out_of_range error. */
  lemma {:induction false} ConstGetNeverReturns(buf: SharedBuf, i: nat, depth: nat)
    ensures ConstGetAsWritten(buf, i, depth) == None
    decreases depth
  {
    if depth > 0 {
      ConstGetNeverReturns(buf, i, depth - 1);
    }
  }
}
