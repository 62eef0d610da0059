/**
 * The reading side of a std::stringstream as the Applanix decoder uses it, on a little-endian host:
 * the bytes not yet read and the fail bit. A short read delivers what is left and sets the fail bit for good.
 */
module ByteReader {
  import opened Bytes

  datatype Reader = Reader(rest: seq<byte>, failed: bool) {
    predicate Good() {
      !failed
    }
  }

  function Read(r: Reader, n: nat): (Reader, seq<byte>) {
    if r.failed then (r, [])
    else if n <= |r.rest| then (Reader(r.rest[n..], false), r.rest[..n])
    else (Reader([], true), r.rest)
  }

  /** Reading into a zeroed unsigned variable of `width` bytes. */
  function ReadField(r: Reader, width: nat): (Reader, nat) {
    var (r', bs) := Read(r, width);
    (r', LittleEndian(bs))
  }

  /** Reading variables of these widths one after another. */
  function Fields(r: Reader, widths: seq<nat>): (res: (Reader, seq<nat>))
    ensures |res.1| == |widths|
    decreases |widths|
  {
    if widths == [] then (r, [])
    else
      var (r1, v) := ReadField(r, widths[0]);
      var (r2, vs) := Fields(r1, widths[1..]);
      (r2, [v] + vs)
  }

  /** n one-byte reads whose values are dropped. */
  function Skip(r: Reader, n: nat): Reader
    decreases n
  {
    if n == 0 then r else Skip(Read(r, 1).0, n - 1)
  }

  // ---------------------------------------------------------------- the writer's side

  function Total(widths: seq<nat>): nat {
    if widths == [] then 0 else widths[0] + Total(widths[1..])
  }

  /** Fields as a writer has them: value and width in bytes. */
  type Field = (nat, nat)

  function Values(fs: seq<Field>): (vs: seq<nat>)
    ensures |vs| == |fs| && forall i :: 0 <= i < |fs| ==> vs[i] == fs[i].0
  {
    seq(|fs|, i requires 0 <= i < |fs| => fs[i].0)
  }

  function Widths(fs: seq<Field>): (ws: seq<nat>)
    ensures |ws| == |fs| && forall i :: 0 <= i < |fs| ==> ws[i] == fs[i].1
  {
    seq(|fs|, i requires 0 <= i < |fs| => fs[i].1)
  }

  /** The values fit the widths. */
  ghost predicate Fit(fs: seq<Field>) {
    forall i :: 0 <= i < |fs| ==> fs[i].0 < Pow256(fs[i].1)
  }

  function Pack(fs: seq<Field>): (bs: seq<byte>)
    ensures |bs| == Total(Widths(fs))
  {
    if fs == [] then []
    else
      assert Widths(fs)[1..] == Widths(fs[1..]);
      ToLittleEndian(fs[0].0, fs[0].1) + Pack(fs[1..])
  }

  lemma ReadExact(bs: seq<byte>, tail: seq<byte>)
    ensures Read(Reader(bs + tail, false), |bs|) == (Reader(tail, false), bs)
  {
    assert (bs + tail)[|bs|..] == tail;
  }

  /** Fields read one after another are the fields that were packed. */
  lemma {:induction false} FieldsRoundTrip(fs: seq<Field>, widths: seq<nat>, tail: seq<byte>)
    requires Fit(fs) && widths == Widths(fs)
    ensures Fields(Reader(Pack(fs) + tail, false), widths) == (Reader(tail, false), Values(fs))
    decreases |fs|
  {
    if fs == [] {
      assert Pack(fs) + tail == tail;
    } else {
      hide ToLittleEndian, LittleEndian, Pow256, Read;
      var first, more := ToLittleEndian(fs[0].0, fs[0].1), Pack(fs[1..]);
      assert Pack(fs) + tail == first + (more + tail);
      ReadExact(first, more + tail);
      LittleEndianRoundTrip(fs[0].0, fs[0].1);
      assert widths[1..] == Widths(fs[1..]);
      FieldsRoundTrip(fs[1..], widths[1..], tail);
      assert [fs[0].0] + Values(fs[1..]) == Values(fs);
    }
  }

  lemma {:induction false} SkipExact(bs: seq<byte>, tail: seq<byte>)
    ensures Skip(Reader(bs + tail, false), |bs|) == Reader(tail, false)
    decreases |bs|
  {
    if bs == [] {
      assert bs + tail == tail;
    } else {
      assert (bs + tail)[1..] == bs[1..] + tail;
      SkipExact(bs[1..], tail);
    }
  }

  // ---------------------------------------------------------------- reading only moves forward

  /** r' is r after some reads: it holds a suffix of r's bytes, and a failed stream stays failed. */
  ghost predicate After(r: Reader, r': Reader) {
    |r'.rest| <= |r.rest| && r'.rest == r.rest[|r.rest| - |r'.rest|..] && (r.failed ==> r'.failed)
  }

  lemma AfterTrans(a: Reader, b: Reader, c: Reader)
    requires After(a, b) && After(b, c)
    ensures After(a, c)
  {
  }

  lemma AfterRead(r: Reader, n: nat)
    ensures After(r, Read(r, n).0)
  {
  }

  lemma {:induction false} AfterFields(r: Reader, widths: seq<nat>)
    ensures After(r, Fields(r, widths).0)
    decreases |widths|
  {
    if widths != [] {
      AfterRead(r, widths[0]);
      AfterFields(ReadField(r, widths[0]).0, widths[1..]);
      AfterTrans(r, ReadField(r, widths[0]).0, Fields(r, widths).0);
    }
  }

  lemma {:induction false} AfterSkip(r: Reader, n: nat)
    ensures After(r, Skip(r, n))
    decreases n
  {
    if n > 0 {
      AfterRead(r, 1);
      AfterSkip(Read(r, 1).0, n - 1);
      AfterTrans(r, Read(r, 1).0, Skip(r, n));
    }
  }

  // ---------------------------------------------------------------- how much reading uses up

  /** Unless the stream has failed by r', exactly n bytes lie between r and r'. */
  ghost predicate Used(r: Reader, r': Reader, n: nat) {
    !r'.failed ==> !r.failed && |r.rest| == |r'.rest| + n
  }

  lemma {:induction false} FieldsUse(r: Reader, widths: seq<nat>)
    ensures Used(r, Fields(r, widths).0, Total(widths))
    decreases |widths|
  {
    if widths != [] {
      FieldsUse(ReadField(r, widths[0]).0, widths[1..]);
    }
  }

  lemma {:induction false} SkipUses(r: Reader, n: nat)
    ensures Used(r, Skip(r, n), n)
    decreases n
  {
    if n > 0 {
      SkipUses(Read(r, 1).0, n - 1);
    }
  }
}
