/** The text form that `shared_buf::print` writes for a buffer: `[`, then each
    byte as lowercase hexadecimal digits without padding followed by `h`,
    the bytes separated by commas, then `]`.  A decoder reads the text back,
    which shows that no two byte sequences print alike. */
module BufferFormat {

  /** One byte of storage (C++ `uint8_t`). */
  newtype byte = x: int | 0 <= x < 0x100

  datatype Option<T> = None | Some(value: T)

  // ---------------------------------------------------------------
  // Hexadecimal digits as `std::hex` writes an `int`
  // ---------------------------------------------------------------

  predicate IsHexDigit(c: char) {
    '0' <= c <= '9' || 'a' <= c <= 'f'
  }

  predicate AllHexDigits(s: string) {
    forall k :: 0 <= k < |s| ==> IsHexDigit(s[k])
  }

  /** The value of one lowercase hexadecimal digit. */
  function DigitValue(c: char): (d: nat)
    requires IsHexDigit(c)
    ensures d < 16
  {
    if c <= '9' then c as int - '0' as int else c as int - 'a' as int + 10
  }

  /** The digit for a value below 16, lowercase as under `std::hex`. */
  function HexDigit(d: nat): (c: char)
    requires d < 16
    ensures IsHexDigit(c) && DigitValue(c) == d
    ensures c == '0' <==> d == 0
  {
    if d < 10 then ('0' as int + d) as char else ('a' as int + d - 10) as char
  }

  /** The digits of `n` in base 16: lowercase, no leading zeros, no fixed
      width; zero is the single digit `0`. */
  function Hex(n: nat): (r: string)
    ensures |r| >= 1 && AllHexDigits(r)
    ensures |r| > 1 ==> r[0] != '0'
    ensures |r| == 1 <==> n < 16
    decreases n
  {
    if n < 16 then [HexDigit(n)] else Hex(n / 16) + [HexDigit(n % 16)]
  }

  /** The number a run of hexadecimal digits denotes, most significant first. */
  function HexValue(s: string): nat
    requires AllHexDigits(s)
  {
    if s == [] then 0 else 16 * HexValue(s[..|s| - 1]) + DigitValue(s[|s| - 1])
  }

  /** Reading the digits back gives the number: the digits lose nothing. */
  lemma {:induction false} HexValueOfHex(n: nat)
    ensures HexValue(Hex(n)) == n
    decreases n
  {
    if n >= 16 {
      HexValueOfHex(n / 16);
      var r := Hex(n);
      assert r[..|r| - 1] == Hex(n / 16);
    }
  }

  /** A byte takes one digit below 16 and two from 16 on. */
  lemma HexOfByte(b: byte)
    ensures |Hex(b as nat)| == if b < 16 then 1 else 2
  {
  }

  // ---------------------------------------------------------------
  // The dump
  // ---------------------------------------------------------------

  /** One element of the dump: the byte's digits and the suffix `h`. */
  function Item(b: byte): (r: string)
    ensures |r| >= 2 && r[|r| - 1] == 'h'
  {
    assert (Hex(b as nat) + "h")[..|Hex(b as nat)|] == Hex(b as nat);
    Hex(b as nat) + "h"
  }

  /** The elements of `s`, comma separated, grown one byte at a time at the
      end, as the loop in `print` grows its output. */
  function Items(s: seq<byte>): (r: string)
    ensures |r| == 0 <==> |s| == 0
  {
    if |s| == 0 then ""
    else if |s| == 1 then Item(s[0])
    else Items(s[..|s| - 1]) + "," + Item(s[|s| - 1])
  }

  /** The whole dump of a buffer whose bytes are `s`. */
  function Format(s: seq<byte>): (r: string)
    ensures 2 <= |r| && r[0] == '[' && r[|r| - 1] == ']'
    ensures r == "[]" <==> s == []
  {
    var r := "[" + Items(s) + "]";
    assert r[1..|r| - 1] == Items(s);
    r
  }

  // ---------------------------------------------------------------
  // Reading a dump back
  // ---------------------------------------------------------------

  predicate NoComma(t: string) {
    forall k :: 0 <= k < |t| ==> t[k] != ','
  }

  /** The position of the last comma in `t`, or -1 when there is none. */
  function LastComma(t: string): (k: int)
    ensures -1 <= k < |t|
  {
    if t == [] then -1
    else if t[|t| - 1] == ',' then |t| - 1
    else LastComma(t[..|t| - 1])
  }

  /** One element `<digits>h` back to its byte; None for anything else. */
  function DecodeItem(u: string): Option<byte>
  {
    if 2 <= |u| && u[|u| - 1] == 'h' && AllHexDigits(u[..|u| - 1])
       && HexValue(u[..|u| - 1]) < 0x100
    then Some(HexValue(u[..|u| - 1]) as byte)
    else None
  }

  /** A comma separated list of elements back to its bytes, splitting at the
      last comma. */
  function DecodeItems(t: string): Option<seq<byte>>
    decreases |t|
  {
    if t == "" then Some([])
    else
      var k := LastComma(t);
      match DecodeItem(t[k + 1..])
      case None => None
      case Some(b) =>
        if k < 0 then Some([b])
        else match DecodeItems(t[..k])
          case Some(front) => if front == [] then None else Some(front + [b])
          case None => None
  }

  /** A whole dump `[...]` back to the buffer's bytes. */
  function Decode(t: string): Option<seq<byte>>
  {
    if 2 <= |t| && t[0] == '[' && t[|t| - 1] == ']' then DecodeItems(t[1..|t| - 1]) else None
  }

  /** An element is hex digits followed by `h`; it holds no comma and
      decodes back to its byte. */
  lemma ItemReadsBack(b: byte)
    ensures AllHexDigits(Item(b)[..|Item(b)| - 1])
    ensures NoComma(Item(b))
    ensures DecodeItem(Item(b)) == Some(b)
  {
    var u := Item(b);
    assert u[..|u| - 1] == Hex(b as nat);
    HexValueOfHex(b as nat);
  }

  lemma {:induction false} LastCommaNone(t: string)
    requires NoComma(t)
    ensures LastComma(t) == -1
    decreases |t|
  {
    if t != [] {
      LastCommaNone(t[..|t| - 1]);
    }
  }

  /** The last comma of `u + "," + v` is the one between them when `v` holds none. */
  lemma {:induction false} LastCommaBetween(u: string, v: string)
    requires NoComma(v)
    ensures LastComma(u + "," + v) == |u|
    decreases |v|
  {
    var t := u + "," + v;
    if v != [] {
      var v' := v[..|v| - 1];
      assert t[..|t| - 1] == u + "," + v';
      LastCommaBetween(u, v');
    }
  }

  /** Decoding `u + "," + v` decodes `u` and the element `v` separately. */
  lemma DecodeItemsSplit(u: string, v: string, front: seq<byte>, b: byte)
    requires NoComma(v) && DecodeItem(v) == Some(b)
    requires DecodeItems(u) == Some(front) && front != []
    ensures DecodeItems(u + "," + v) == Some(front + [b])
  {
    var t := u + "," + v;
    LastCommaBetween(u, v);
    assert t[|u| + 1..] == v;
    assert t[..|u|] == u;
  }

  lemma DecodeItemsSingle(b: byte)
    ensures DecodeItems(Item(b)) == Some([b])
  {
    var t := Item(b);
    ItemReadsBack(b);
    LastCommaNone(t);
    assert t[0..] == t;
  }

  lemma {:induction false} DecodeItemsOfItems(s: seq<byte>)
    ensures DecodeItems(Items(s)) == Some(s)
    decreases |s|
  {
    if |s| == 1 {
      DecodeItemsSingle(s[0]);
      assert [s[0]] == s;
    } else if |s| > 1 {
      var front, last := s[..|s| - 1], s[|s| - 1];
      SplitLast(s);
      ItemReadsBack(last);
      DecodeItemsOfItems(front);
      DecodeItemsSplit(Items(front), Item(last), front, last);
      ItemsSnoc(s);
    }
  }

  lemma SplitLast(s: seq<byte>)
    requires |s| > 0
    ensures s[..|s| - 1] + [s[|s| - 1]] == s
  {
  }

  /** The last element of a list of two or more follows the rest after a comma. */
  lemma ItemsSnoc(s: seq<byte>)
    requires |s| > 1
    ensures Items(s) == Items(s[..|s| - 1]) + "," + Item(s[|s| - 1])
  {
  }

  /** Decoding a dump gives back exactly the bytes that were printed. */
  lemma DecodeFormat(s: seq<byte>)
    ensures Decode(Format(s)) == Some(s)
  {
    var r := Format(s);
    assert r[1..|r| - 1] == Items(s);
    DecodeItemsOfItems(s);
  }

  /** Two buffers print alike only when they hold the same bytes. */
  lemma FormatInjective(s: seq<byte>, s': seq<byte>)
    requires Format(s) == Format(s')
    ensures s == s'
  {
    DecodeFormat(s);
    DecodeFormat(s');
  }

  /** Sample digits: zero is `0`, ten is `a`, 255 is `ff`; the empty buffer prints `[]`. */
  lemma HexSamples()
    ensures Hex(0) == "0" && Hex(10) == "a" && Hex(255) == "ff"
    ensures Format([]) == "[]"
  {
  }

  /** A sample dump of three one-digit bytes. */
  lemma FormatSamples()
    ensures Format([1, 2, 3]) == "[1h,2h,3h]"
  {
    var a: seq<byte> := [1, 2, 3];
    assert a[..2][..1] == [1];
    assert Items(a[..2]) == "1h,2h";
    assert Items(a) == "1h,2h,3h";
  }

  /** A sample dump with zero, a letter digit and two digits. */
  lemma FormatSamplesWide()
    ensures Format([0, 10, 255]) == "[0h,ah,ffh]"
  {
    var b: seq<byte> := [0, 10, 255];
    HexSamples();
    assert b[..2][..1] == [0];
    assert Items(b[..2]) == "0h,ah";
    assert Items(b) == "0h,ah,ffh";
  }
}
