/** Bytes, options and the few facts about byte sequences the other modules share. */
module Bytes {

  type byte = b: int | 0 <= b < 256

  // The ranges of the unsigned types.
  const U32: nat := 0x1_0000_0000
  const U64: nat := 0x1_0000_0000_0000_0000

  datatype Option<+T> = None | Some(value: T)

  /** A 16-bit or 32-bit unsigned number stored least significant byte first. */
  function LittleEndian(bs: seq<byte>): nat {
    if bs == [] then 0 else bs[0] + 256 * LittleEndian(bs[1..])
  }

  /** The same, most significant byte first. */
  function BigEndian(bs: seq<byte>): nat {
    if bs == [] then 0 else 256 * BigEndian(bs[..|bs| - 1]) + bs[|bs| - 1]
  }

  /** The `width` low-order bytes of n, least significant first. */
  function ToLittleEndian(n: nat, width: nat): (bs: seq<byte>)
    ensures |bs| == width
  {
    if width == 0 then [] else [n % 256] + ToLittleEndian(n / 256, width - 1)
  }

  function Pow256(width: nat): nat {
    if width == 0 then 1 else 256 * Pow256(width - 1)
  }

  lemma {:induction false} LittleEndianRoundTrip(n: nat, width: nat)
    requires n < Pow256(width)
    ensures LittleEndian(ToLittleEndian(n, width)) == n
  {
    if width > 0 {
      var tail := ToLittleEndian(n / 256, width - 1);
      assert ([n % 256] + tail)[1..] == tail;
      LittleEndianRoundTrip(n / 256, width - 1);
    }
  }

  function Zeros(n: nat): (bs: seq<byte>)
    ensures |bs| == n
  {
    seq(n, _ => 0)
  }

  lemma LittleEndianBound(bs: seq<byte>)
    requires |bs| <= 2
    ensures LittleEndian(bs) < 0x1_0000
  {
    if bs != [] {
      assert LittleEndian(bs[1..]) < 256;
    }
  }

  lemma SliceOfSlice(c: seq<byte>, a: nat, b: nat, i: nat, j: nat)
    requires a <= b <= |c| && i <= j <= b - a
    ensures c[a..b][i..j] == c[a + i..a + j]
  {
    var left, right := c[a..b][i..j], c[a + i..a + j];
    assert forall k :: 0 <= k < j - i ==> left[k] == c[a + i + k] == right[k];
  }

  /** The same bytes from last to first. */
  function Backwards(bs: seq<byte>): (r: seq<byte>)
    ensures |r| == |bs|
  {
    if bs == [] then [] else Backwards(bs[1..]) + [bs[0]]
  }

  /** Most significant byte first is least significant byte first read backwards. */
  lemma {:induction false} BigEndianBackwards(bs: seq<byte>)
    ensures BigEndian(Backwards(bs)) == LittleEndian(bs)
  {
    if bs != [] {
      BigEndianBackwards(bs[1..]);
      assert (Backwards(bs[1..]) + [bs[0]])[..|bs| - 1] == Backwards(bs[1..]);
    }
  }

  lemma BigEndianRoundTrip(n: nat, width: nat)
    requires n < Pow256(width)
    ensures BigEndian(Backwards(ToLittleEndian(n, width))) == n
  {
    LittleEndianRoundTrip(n, width);
    BigEndianBackwards(ToLittleEndian(n, width));
  }

  /** What the words of two and four bytes are, place by place. */
  lemma PlaceValues(a: byte, b: byte, c: byte, d: byte)
    ensures LittleEndian([a, b]) == a + 0x100 * b
    ensures LittleEndian([a, b, c, d]) == a + 0x100 * b + 0x1_0000 * c + 0x100_0000 * d
    ensures BigEndian([a, b, c, d]) == 0x100_0000 * a + 0x1_0000 * b + 0x100 * c + d
  {
    OneByte(a);
    OneByte(b);
    OneByte(d);
    assert [a, b][1..] == [b] && [c, d][1..] == [d] && [a, b][..1] == [a];
    assert LittleEndian([a, b]) == a + 256 * b && LittleEndian([c, d]) == c + 256 * d && BigEndian([a, b]) == 256 * a + b;
    assert [b, c, d][1..] == [c, d] && [a, b, c][..2] == [a, b];
    assert LittleEndian([b, c, d]) == b + 256 * LittleEndian([c, d]) && BigEndian([a, b, c]) == 256 * BigEndian([a, b]) + c;
    assert [a, b, c, d][1..] == [b, c, d] && [a, b, c, d][..3] == [a, b, c];
  }

  lemma OneByte(a: byte)
    ensures LittleEndian([a]) == a && BigEndian([a]) == a
  {
    assert [a][1..] == [] && [a][..0] == [];
  }
}
