/**
 * The test module of src/sorter.rs: the `Sortable` codec of `u32` (four
 * little-endian bytes) and its natural order, and the two tests run on it.
 */
module SorterTests {
  import opened Compare
  import opened Io
  import opened Sorter
  import opened SorterProofs

  type Byte = x: int | 0 <= x < 256
  type U32 = x: int | 0 <= x < 0x1_0000_0000

  /** The value of four bytes, least significant first. */
  function LittleEndian(b0: Byte, b1: Byte, b2: Byte, b3: Byte): (x: U32) {
    b0 as int + 256 * (b1 as int) + 65536 * (b2 as int) + 16777216 * (b3 as int)
  }

  /** `encode`: the four bytes of `x`, least significant first. */
  function EncodeU32(x: U32): (bs: seq<Byte>)
    ensures |bs| == 4
    ensures LittleEndian(bs[0], bs[1], bs[2], bs[3]) == x
  {
    var y := x / 256;
    var z := y / 256;
    assert z < 65536;
    assert LittleEndian(x % 256, y % 256, z % 256, z / 256) == x by {
      assert z == z % 256 + 256 * (z / 256);
      assert y == y % 256 + 256 * z;
      assert x == x % 256 + 256 * y;
    }
    [x % 256, y % 256, z % 256, z / 256]
  }

  /** `decode`: four bytes read back as a little-endian `u32`, and what is left; `None` on fewer than four bytes. */
  function DecodeU32(bs: seq<Byte>): (r: Option<(U32, seq<Byte>)>)
    ensures r.None? <==> |bs| < 4
    ensures r.Some? ==> r.value.1 == bs[4..]
  {
    if |bs| < 4 then None
    else Some((LittleEndian(bs[0], bs[1], bs[2], bs[3]), bs[4..]))
  }

  /** Decoding what was encoded gives the value back and leaves the bytes that follow. */
  lemma DecodeEncode(x: U32, rest: seq<Byte>)
    ensures DecodeU32(EncodeU32(x) + rest) == Some((x, rest))
  {
    var bs := EncodeU32(x) + rest;
    assert bs[..4] == EncodeU32(x) && bs[4..] == rest;
  }

  /** A little-endian byte sum determines its bytes. */
  lemma DigitsUnique(b0: Byte, b1: Byte, b2: Byte, b3: Byte)
    ensures EncodeU32(LittleEndian(b0, b1, b2, b3)) == [b0, b1, b2, b3]
  {
    var x: int := LittleEndian(b0, b1, b2, b3);
    var z: int := b2 as int + 256 * (b3 as int);
    var y: int := b1 as int + 256 * z;
    assert x == b0 as int + 256 * y;
    assert x / 256 == y && x % 256 == b0;
    assert y / 256 == z && y % 256 == b1;
    assert z / 256 == b3 && z % 256 == b2;
  }

  /** Encoding what four bytes decode to gives those four bytes back. */
  lemma EncodeDecode(bs: seq<Byte>)
    requires |bs| >= 4
    ensures DecodeU32(bs).Some? && EncodeU32(DecodeU32(bs).value.0) == bs[..4]
  {
    DigitsUnique(bs[0], bs[1], bs[2], bs[3]);
  }

  /** The bytes of a segment written from `xs`. */
  function EncodeAll(xs: seq<U32>): (bs: seq<Byte>)
    ensures |bs| == 4 * |xs|
  {
    if xs == [] then [] else EncodeU32(xs[0]) + EncodeAll(xs[1..])
  }

  /** A `ChunkReader` over segment bytes: decode until the first `None`, one value per whole record. */
  function DecodeAll(bs: seq<Byte>): (r: seq<U32>)
    ensures |r| == |bs| / 4
    decreases |bs|
  {
    match DecodeU32(bs)
    case None => []
    case Some((v, rest)) => [v] + DecodeAll(rest)
  }

  /**
   * Reading a written segment gives back exactly the items written; a
   * trailing partial record of fewer than four bytes is dropped silently.
   */
  lemma {:induction false} DecodeAllEncodeAll(xs: seq<U32>, tail: seq<Byte>)
    requires |tail| < 4
    ensures DecodeAll(EncodeAll(xs) + tail) == xs
  {
    if xs == [] {
      assert EncodeAll(xs) + tail == tail;
    } else {
      assert EncodeAll(xs) + tail == EncodeU32(xs[0]) + (EncodeAll(xs[1..]) + tail);
      DecodeEncode(xs[0], EncodeAll(xs[1..]) + tail);
      DecodeAllEncodeAll(xs[1..], tail);
    }
  }

  /** The natural order of `u32`. */
  function NatOrd(a: U32, b: U32): Ordering {
    if a < b then Less else if a == b then Equal else Greater
  }

  lemma NatOrdIsTotalOrder()
    ensures TotalOrder(NatOrd)
  {
    forall a: U32, b: U32, c: U32 ensures TransitiveAt(NatOrd, a, b, c) {
    }
  }

  /** `0, 1, …, n-1`. */
  function Range(n: nat): (s: seq<U32>)
    requires n <= 0x1_0000_0000
    ensures |s| == n && forall i :: 0 <= i < n ==> s[i] == i
  {
    seq(n, i requires 0 <= i < n => i as U32)
  }

  /** `n-1, …, 1, 0`. */
  function Reversed(n: nat): (s: seq<U32>)
    requires n <= 0x1_0000_0000
    ensures |s| == n && forall i :: 0 <= i < n ==> s[i] == n - 1 - i
  {
    seq(n, i requires 0 <= i < n => (n - 1 - i) as U32)
  }

  lemma {:induction false} ReversedIsPermutation(n: nat)
    requires n <= 0x1_0000_0000
    ensures multiset(Reversed(n)) == multiset(Range(n))
  {
    if n > 0 {
      ReversedIsPermutation(n - 1);
      assert Range(n) == Range(n - 1) + [(n - 1) as U32];
      assert Reversed(n) == [(n - 1) as U32] + Reversed(n - 1);
    }
  }

  /** Sorting `n-1, …, 0` with any sorter yields `0, …, n-1`, under the stated segment count. */
  lemma SortReversed(s: ExternalSorter, n: nat)
    requires n <= 0x1_0000_0000
    requires n % (s.maxSize + 1) != 0 || n == 0
    ensures SortSpec(NatOrd, s, Reversed(n), [], "sort").Ok?
    ensures var st := SortSpec(NatOrd, s, Reversed(n), [], "sort").value;
            var q := n / (s.maxSize + 1);
            && st.segmentCount == q + (if q > 0 && n % (s.maxSize + 1) > 0 then 1 else 0)
            && Drain(st) == Range(n)
  {
    NatOrdIsTotalOrder();
    SortSucceedsWithoutFault(NatOrd, s, Reversed(n), "sort");
    SortCorrect(NatOrd, s, Reversed(n), [], "sort");
    ReversedIsPermutation(n);
    SortByUnique(NatOrd, Reversed(n), Range(n));
  }

  /** `test_smaller_than_segment`: 100 reversed items with the defaults use no segment and come out ascending. */
  lemma SmallerThanSegment()
    ensures SortSpec(NatOrd, New(), Reversed(100), [], "sort").Ok?
    ensures var st := SortSpec(NatOrd, New(), Reversed(100), [], "sort").value;
            st.segmentCount == 0 && Drain(st) == Range(100)
  {
    SortReversed(New(), 100);
  }

  /** `test_multiple_segments`: 1000 reversed items with `max_size` 100 use 10 segments and come out ascending. */
  lemma MultipleSegments()
    ensures SortSpec(NatOrd, SetMaxSize(New(), 100), Reversed(1000), [], "sort").Ok?
    ensures var st := SortSpec(NatOrd, SetMaxSize(New(), 100), Reversed(1000), [], "sort").value;
            st.segmentCount == 10 && Drain(st) == Range(1000)
  {
    var s := SetMaxSize(New(), 100);
    assert s.maxSize + 1 == 101 && 1000 / 101 == 9 && 1000 % 101 == 91;
    SortReversed(s, 1000);
  }
}
