/** The two dumps the demonstration program prints, computed element by
    element.  Each dump is worked out in three stages of a few elements, so
    that no single proof grows too large. */
module DumpSamples {
  import opened BufferFormat

  /** The bytes after the counting fill. */
  const OneToTen: seq<byte> := [1, 2, 3, 4, 5, 6, 7, 8, 9, 10]

  lemma FormatOneToTenFront()
    ensures Items(OneToTen[..4]) == "1h,2h,3h,4h"
  {
    assert Items(OneToTen[..1]) == "1h";
    ItemsGrow(OneToTen, 1);
    assert Items(OneToTen[..2]) == "1h,2h";
    ItemsGrow(OneToTen, 2);
    assert Items(OneToTen[..3]) == "1h,2h,3h";
    ItemsGrow(OneToTen, 3);
    assert Items(OneToTen[..4]) == "1h,2h,3h,4h";
  }

  lemma FormatOneToTenMiddle()
    ensures Items(OneToTen[..7]) == "1h,2h,3h,4h,5h,6h,7h"
  {
    FormatOneToTenFront();
    ItemsGrow(OneToTen, 4);
    ItemsGrow(OneToTen, 5);
    ItemsGrow(OneToTen, 6);
  }

  lemma FormatOneToTen()
    ensures Format(OneToTen) == "[1h,2h,3h,4h,5h,6h,7h,8h,9h,ah]"
  {
    FormatOneToTenMiddle();
    ItemsGrow(OneToTen, 7);
    ItemsGrow(OneToTen, 8);
    ItemsGrow(OneToTen, 9);
    assert OneToTen[..10] == OneToTen;
  }

  /** The bytes after `buf_copy[2] = 0`. */
  const AfterWrite: seq<byte> := [1, 2, 0, 4, 5, 6, 7, 8, 9, 10]

  lemma FormatAfterWriteFront()
    ensures Items(AfterWrite[..4]) == "1h,2h,0h,4h"
  {
    assert Items(AfterWrite[..1]) == "1h";
    ItemsGrow(AfterWrite, 1);
    assert Items(AfterWrite[..2]) == "1h,2h";
    ItemsGrow(AfterWrite, 2);
    assert Items(AfterWrite[..3]) == "1h,2h,0h";
    ItemsGrow(AfterWrite, 3);
    assert Items(AfterWrite[..4]) == "1h,2h,0h,4h";
  }

  lemma FormatAfterWriteMiddle()
    ensures Items(AfterWrite[..7]) == "1h,2h,0h,4h,5h,6h,7h"
  {
    FormatAfterWriteFront();
    ItemsGrow(AfterWrite, 4);
    ItemsGrow(AfterWrite, 5);
    ItemsGrow(AfterWrite, 6);
  }

  lemma FormatAfterWrite()
    ensures Format(AfterWrite) == "[1h,2h,0h,4h,5h,6h,7h,8h,9h,ah]"
  {
    FormatAfterWriteMiddle();
    ItemsGrow(AfterWrite, 7);
    ItemsGrow(AfterWrite, 8);
    ItemsGrow(AfterWrite, 9);
    assert AfterWrite[..10] == AfterWrite;
  }

  /** One more byte adds a comma and that byte's element. */
  lemma ItemsGrow(s: seq<byte>, k: nat)
    requires 1 <= k < |s|
    ensures Items(s[..k + 1]) == Items(s[..k]) + "," + Item(s[k])
  {
    assert s[..k + 1][..k] == s[..k];
  }
}
