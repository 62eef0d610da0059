/**
 * How long a chunk may be: on a fresh decoder the loop of nextString ends and decodes safely for every chunk of n
 * bytes exactly if n is at most MAX_STREAM. Here the loop is unrolled turn by turn, without its invariant.
 */
module ApplanixBound {
  import opened Bytes
  import opened ByteReader
  import opened ApplanixPayloads
  import opened ApplanixDecoder
  import opened ApplanixRuns

  /** The loop is over, or a payload decoder does not return. */
  ghost predicate Over(f: Framer) {
    f.hung || !LoopGuard(f) || Waiting(f)
  }

  /** The first k turns. */
  ghost function Turns(f: Framer, k: nat): (r: Framer)
    requires Positioned(f)
    ensures Positioned(r)
  {
    if k == 0 then f
    else
      var g := Turns(f, k - 1);
      TurnStays(g);
      if Over(g) then g else Turn(g)
  }

  lemma TurnStays(f: Framer)
    requires Positioned(f)
    ensures Positioned(Turn(f))
  {
    hide PayloadSpec, Known;
    TurnPositioned(f);
  }

  function Start(data: seq<byte>): Framer {
    INITIAL.(bytes := data, accepted := data)
  }

  /** The loop on a fresh decoder ends, and everything it decodes on the way is safe. */
  ghost predicate Fine(data: seq<byte>) {
    (exists k: nat :: Over(Turns(Start(data), k))) && (forall k: nat :: LogSafe(Turns(Start(data), k).log, data))
  }

  lemma ChunkBoundIsExact(n: nat)
    ensures (forall data: seq<byte> :: |data| == n ==> Fine(data)) <==> n <= MAX_STREAM
  {
    hide Fine;
    if n <= MAX_STREAM {
      forall data: seq<byte> | |data| == n ensures Fine(data) {
        ShortIsFine(data);
      }
    } else if n < U32 {
      LongIsUnsafe(n);
      assert |Trap(n)| == n;
    } else {
      EndlessZeros(n);
    }
  }

  // ---------------------------------------------------------------- up to MAX_STREAM

  lemma ShortIsFine(data: seq<byte>)
    requires |data| <= MAX_STREAM
    ensures Fine(data)
  {
    hide Over, Turn, LogSafe;
    var f := Start(data);
    assert Inv(f) by { StartInv(data); }
    forall k: nat ensures LogSafe(Turns(f, k).log, data) {
      TurnsKeepInv(f, k);
    }
    var k := Ends(f, 0);
  }

  lemma StartInv(data: seq<byte>)
    requires |data| <= MAX_STREAM
    ensures Inv(Start(data))
  {
  }

  lemma {:induction false} TurnsKeepInv(f: Framer, k: nat)
    requires Inv(f)
    ensures Inv(Turns(f, k)) && Turns(f, k).accepted == f.accepted && LogSafe(Turns(f, k).log, f.accepted)
  {
    hide Turn, LogSafe, SentBy, HeaderAt, LoopGuard, Waiting;
    if k > 0 {
      TurnsKeepInv(f, k - 1);
      if !Over(Turns(f, k - 1)) {
        TurnKeepsInv(Turns(f, k - 1));
      }
    }
  }

  lemma {:induction false} Ends(f: Framer, k: nat) returns (m: nat)
    requires Inv(f)
    ensures Over(Turns(f, m))
    decreases LeftToScan(TurnsOf(f, k))
  {
    hide Turn, Inv, LoopGuard, Waiting, LeftToScan;
    InvPositioned(f);
    TurnsKeepInv(f, k);
    if Over(Turns(f, k)) {
      m := k;
    } else {
      TurnShrinks(Turns(f, k));
      assert Turns(f, k + 1) == Turn(Turns(f, k));
      m := Ends(f, k + 1);
    }
  }

  ghost function TurnsOf(f: Framer, k: nat): Framer {
    if Positioned(f) then Turns(f, k) else f
  }

  // ---------------------------------------------------------------- single turns, without the invariant

  /** No frame pending, at position k. */
  ghost predicate Scanning(f: Framer, data: seq<byte>, k: nat) {
    && f.bytes == data == f.accepted && f.base == 0 && !f.failed && !f.hung && !f.buffering && !f.foundHeader
    && f.toRemove == k && f.get == (if k == 0 then 0 else k + 5) <= |data|
  }

  /** A frame of group 10003 pending behind its header, with its payload from t on. */
  ghost predicate Pends(f: Framer, data: seq<byte>, t: nat, size: nat) {
    && f.bytes == data == f.accepted && f.base == 0 && !f.failed && !f.hung && f.buffering && f.foundHeader
    && f.toRemove == f.get == t <= |data| && f.next == 10003 && f.payloadSize == size
  }

  function Header(size: nat): (bs: seq<byte>)
    ensures |bs| == 8
  {
    GRP_START + [0x13, 0x27] + [size % 256, size / 256 % 256]
  }

  ghost predicate HeaderIn(data: seq<byte>, j: nat, size: nat) {
    j + 8 <= |data| && data[j..j + 8] == Header(size) && size < 0x1_0000
  }

  lemma HeaderReadsAs(data: seq<byte>, j: nat, size: nat)
    requires HeaderIn(data, j, size)
    ensures data[j..j + 4] == GRP_START && KnownHeader(data, j)
    ensures LittleEndian(data[j + 4..j + 6]) == 10003 && LittleEndian(data[j + 6..j + 8]) == size
  {
    SliceOfSlice(data, j, j + 8, 0, 4);
    SliceOfSlice(data, j, j + 8, 4, 6);
    SliceOfSlice(data, j, j + 8, 6, 8);
    assert data[j..j + 8][4..6] == [0x13, 0x27];
    assert data[j..j + 8][6..8] == [size % 256, size / 256 % 256];
    TwoLittleBytes(0x13, 0x27);
    TwoLittleBytes(size % 256, size / 256 % 256);
  }

  lemma TwoLittleBytes(a: byte, b: byte)
    ensures LittleEndian([a, b]) == a + 256 * b
  {
    assert [a, b][1..] == [b] && [b][1..] == [];
    assert LittleEndian([b]) == b;
  }

  lemma ScanTurn(f: Framer, data: seq<byte>, k: nat)
    requires Scanning(f, data, k) && k + 6 <= |data| && data[k] == 0 && k + 8 < U32 && Available(f) >= GRP_HEADER_SIZE
    ensures Positioned(f) && Scanning(Turn(f), data, k + 1)
  {
    hide TryHeader, Available, Known, LittleEndian;
    assert data[k..k + 4][0] == 0;
    HeaderUnknown(f);
  }

  lemma HeaderTurn(f: Framer, data: seq<byte>, k: nat, size: nat)
    requires Scanning(f, data, k) && HeaderIn(data, k, size) && k + 8 < U32 && Available(f) >= GRP_HEADER_SIZE
    ensures Positioned(f) && Pends(Turn(f), data, k + 8, size)
  {
    hide TryHeader, Available, Known, LittleEndian, HeaderIn;
    HeaderReadsAs(data, k, size);
    assert k + 8 <= |data| by { HeaderFits(data, k, size); }
    HeaderFound(f);
  }

  lemma HeaderFits(data: seq<byte>, j: nat, size: nat)
    requires HeaderIn(data, j, size)
    ensures j + 8 <= |data|
  {
  }

  /** Group 10003 takes 32 bytes if there are as many. */
  lemma PulseCount(r: Reader, size: nat)
    ensures PayloadSpec(r, 10003, size).Returned?
    ensures !r.failed && |r.rest| >= 32 ==>
      var r' := PayloadSpec(r, 10003, size).reader; !r'.failed && |r'.rest| == |r.rest| - 32
  {
    hide Fields;
    assert Total(TIME_WIDTHS) == 26 && Total(GRP10003_WIDTHS) == 6;
    if !r.failed && |r.rest| >= 32 {
      FieldsEnough(r, TIME_WIDTHS);
      FieldsEnough(TimeSpec(r).0, GRP10003_WIDTHS);
    }
  }

  lemma {:induction false} FieldsEnough(r: Reader, widths: seq<nat>)
    requires !r.failed && |r.rest| >= Total(widths)
    ensures !Fields(r, widths).0.failed && |Fields(r, widths).0.rest| == |r.rest| - Total(widths)
    decreases |widths|
  {
    if widths != [] {
      FieldsEnough(ReadField(r, widths[0]).0, widths[1..]);
    }
  }

  lemma DecodeStep(f: Framer, data: seq<byte>, t: nat, size: nat)
    requires Pends(f, data, t, size)
    ensures Positioned(f)
    ensures var f1 := DecodePending(f);
            && !f1.hung && !f1.buffering && !f1.foundHeader && f1.bytes == data == f1.accepted && f1.base == 0
            && f1.toRemove == U32Of(t + size + GRP_FOOTER_SIZE) && f1.get <= |data|
            && |f1.log| == |f.log| + 1 && f1.log[|f.log|].header == t - 8 && f1.log[|f.log|].size == size
            && f1.log[|f.log|].received == |data|
            && (t + 32 <= |data| ==> !f1.failed && f1.get == t + 32)
  {
    hide PayloadSpec, Sends;
    PulseCount(Unread(f), size);
    ShorterPayload(Unread(f), 10003, size);
  }

  lemma TryHeaderLog(f: Framer)
    requires Positioned(f)
    ensures TryHeader(f).log == f.log
  {
  }

  lemma DecodeThenHeader(f: Framer, data: seq<byte>, t: nat, size: nat, size': nat)
    requires Pends(f, data, t, size) && t + size + 12 < U32 && t + 32 <= |data| && HeaderIn(data, t + size + 4, size')
    requires U32Of(U32Of(|data|) - U32Of(U32Of(t + 32) + t + size + 4)) >= GRP_HEADER_SIZE
    ensures Positioned(f) && Pends(Turn(f), data, t + size + 12, size')
  {
    hide TryHeader, DecodePending, U32Of, Known, LittleEndian, HeaderIn;
    Modulo(t + size + GRP_FOOTER_SIZE, 0);
    DecodeStep(f, data, t, size);
    HeaderReadsAs(data, t + size + 4, size');
    HeaderFits(data, t + size + 4, size');
    HeaderFound(DecodePending(f));
  }

  lemma DecodeThenSkip(f: Framer, data: seq<byte>, t: nat, size: nat)
    requires Pends(f, data, t, size) && t + size + 12 < U32 && t + 32 <= |data| && t + size + 10 <= |data| && data[t + size + 4] == 0
    requires U32Of(U32Of(|data|) - U32Of(U32Of(t + 32) + t + size + 4)) >= GRP_HEADER_SIZE
    ensures Positioned(f) && Scanning(Turn(f), data, t + size + 5)
  {
    hide TryHeader, DecodePending, U32Of, Known, LittleEndian;
    Modulo(t + size + GRP_FOOTER_SIZE, 0);
    DecodeStep(f, data, t, size);
    var k := t + size + 4;
    assert data[k..k + 4][0] == 0;
    HeaderUnknown(DecodePending(f));
  }

  /** A frame decoded before its payload has been received. */
  lemma DecodeTooEarly(f: Framer, data: seq<byte>, t: nat, size: nat)
    requires Pends(f, data, t, size) && t + size > |data|
    ensures Positioned(f) && !LogSafe(Turn(f).log, data)
  {
    hide TryHeader, DecodePending, U32Of;
    DecodeStep(f, data, t, size);
    var f1 := DecodePending(f);
    TryHeaderLog(f1);
    assert !SafeDecode(f1.log[|f.log|], data);
  }

  // ---------------------------------------------------------------- scanning

  /** Arithmetic modulo 2^32, with the number of times it wraps. */
  lemma Modulo(x: int, q: int)
    requires q * U32 <= x < (q + 1) * U32
    ensures U32Of(x) == x - q * U32
  {
  }

  function PosAt(k: nat): nat {
    if k == 0 then 0 else k + 5
  }

  function GuardAt(n: nat, k: nat): bool {
    U32Of(U32Of(PosAt(k)) + k + GRP_HEADER_SIZE) < n
  }

  function AvailableAt(n: nat, k: nat): nat {
    U32Of(U32Of(n) - U32Of(U32Of(PosAt(k)) + k))
  }

  lemma ScanningAt(f: Framer, data: seq<byte>, k: nat)
    requires Scanning(f, data, k)
    ensures Positioned(f) && Available(f) == AvailableAt(|data|, k) && (Over(f) <==> !GuardAt(|data|, k))
  {
    hide U32Of;
  }

  /** The loop passes zeros from k to j, if the guards let it. */
  lemma {:induction false} ScanRun(s: Framer, i: nat, data: seq<byte>, k: nat, j: nat)
    requires Positioned(s) && Scanning(Turns(s, i), data, k) && k <= j && j + 5 <= |data| && j + 7 < U32
    requires forall x :: k <= x < j ==> data[x] == 0 && GuardAt(|data|, x) && AvailableAt(|data|, x) >= GRP_HEADER_SIZE
    ensures Scanning(Turns(s, i + j - k), data, j)
    decreases j - k
  {
    hide Turn, Over, Scanning, GuardAt, AvailableAt, Available;
    if k < j {
      var f := Turns(s, i);
      ScanningAt(f, data, k);
      ScanTurn(f, data, k);
      assert Turns(s, i + 1) == Turn(f);
      ScanRun(s, i + 1, data, k + 1, j);
    }
  }

  // ---------------------------------------------------------------- from 2^32 bytes on

  /** Where scanning n zeros gets stuck: a whole number of times 2^32 looks like no bytes at all. */
  function StuckAt(n: nat): nat {
    var m := n % U32;
    if m < 8 then 0 else if m < 13 then 1 else (m - 11) / 2
  }

  lemma StuckPositions(n: nat, x: nat)
    requires n >= U32 && x <= StuckAt(n)
    ensures x + 8 < U32 && GuardAt(n, x) && (AvailableAt(n, x) >= GRP_HEADER_SIZE <==> x < StuckAt(n))
  {
    hide U32Of;
    var m, pos := n % U32, PosAt(x);
    Remainder(n);
    Remainder(U32Of(pos) + x + GRP_HEADER_SIZE);
    Modulo(pos, 0);
    Modulo(pos + x, 0);
    Modulo(m - (pos + x), 0);
  }

  lemma Remainder(x: int)
    ensures U32Of(x) == x % U32 < U32
  {
  }

  lemma StuckTurn(f: Framer, data: seq<byte>, k: nat)
    requires Scanning(f, data, k) && AvailableAt(|data|, k) < GRP_HEADER_SIZE
    ensures Positioned(f) && Turn(f) == f
  {
    hide U32Of;
  }

  lemma {:induction false} StuckForever(s: Framer, data: seq<byte>, i: nat, k: nat)
    requires Positioned(s) && |data| >= U32 && k == StuckAt(|data|) && Scanning(Turns(s, k), data, k) && i >= k
    ensures Turns(s, i) == Turns(s, k)
    decreases i
  {
    hide Turn, Over, Scanning, StuckAt;
    if i > k {
      StuckForever(s, data, i - 1, k);
      StuckPositions(|data|, k);
      ScanningAt(Turns(s, k), data, k);
      StuckTurn(Turns(s, k), data, k);
    }
  }

  /** On zeros the loop does not end. */
  lemma EndlessZeros(n: nat)
    requires n >= U32
    ensures |Zeros(n)| == n && !Fine(Zeros(n))
  {
    hide Turn, Over, GuardAt, AvailableAt, StuckAt;
    var data, s, stuck := Zeros(n), Start(Zeros(n)), StuckAt(n);
    forall i: nat ensures !Over(Turns(s, i)) {
      var k := if i < stuck then i else stuck;
      forall x | 0 <= x <= stuck ensures x + 8 < U32 && GuardAt(n, x) && (x < stuck ==> AvailableAt(n, x) >= GRP_HEADER_SIZE) {
        StuckPositions(n, x);
      }
      StuckPositions(n, k);
      ScanRun(s, 0, data, 0, k);
      ScanningAt(Turns(s, k), data, k);
      if i >= stuck {
        StuckForever(s, data, i, stuck);
      }
    }
  }

  // ---------------------------------------------------------------- between MAX_STREAM and 2^32

  /** The payload size of the first frame. */
  function Large(n: nat): nat {
    65534 + n % 2
  }

  /** Where the first frame's payload begins: it ends as far from the middle of the chunk as the guard allows. */
  function Middle(n: nat): nat
    requires MAX_STREAM < n < U32
  {
    (n - Large(n)) / 2
  }

  /**
   * A large frame in the middle of zeros, an empty one right behind it, and one at the end that announces 40 bytes
   * where 22 are left.
   */
  function Trap(n: nat): (data: seq<byte>)
    requires MAX_STREAM < n < U32
    ensures |data| == n
  {
    var p, t := Large(n), Middle(n);
    Zeros(t - 8) + Header(p) + Zeros(p + 4) + Header(0) + Zeros(n - 30 - (t + p + 12)) + Header(40) + Zeros(22)
  }

  lemma TrapBytes(n: nat)
    requires MAX_STREAM < n < U32
    ensures var data, p, t := Trap(n), Large(n), Middle(n);
            && HeaderIn(data, t - 8, p) && HeaderIn(data, t + p + 4, 0) && HeaderIn(data, n - 30, 40)
            && (forall k :: 0 <= k < t - 8 ==> data[k] == 0)
            && (forall k :: t + p + 12 <= k < n - 30 ==> data[k] == 0)
  {
    var data, p, t := Trap(n), Large(n), Middle(n);
    assert data[t - 8..t] == Header(p);
    assert data[t + p + 4..t + p + 12] == Header(0);
    assert data[n - 30..n - 22] == Header(40);
  }

  /** Before the first frame no sum wraps; behind the second one all of them have. */
  lemma TrapPositions(n: nat, x: nat)
    requires MAX_STREAM < n < U32
    requires x <= Middle(n) - 8 || Middle(n) + Large(n) + 17 <= x <= n - 30
    ensures GuardAt(n, x) && AvailableAt(n, x) >= GRP_HEADER_SIZE
  {
  }

  lemma FirstFrame(n: nat)
    requires MAX_STREAM < n < U32
    ensures var p, t := Large(n), Middle(n);
            && U32Of(U32Of(t) + t + GRP_HEADER_SIZE) < n && U32Of(U32Of(n) - U32Of(U32Of(t) + t)) >= p
            && U32Of(U32Of(n) - U32Of(U32Of(t + 32) + t + p + 4)) >= GRP_HEADER_SIZE
  {
    hide U32Of;
    var p, t := Large(n), Middle(n);
    Modulo(n, 0);
    Modulo(t, 0);
    Modulo(t + 32, 0);
    Modulo(2 * t, 0);
    Modulo(2 * t + 8, 0);
    Modulo(2 * t + p + 36, if 2 * t + p + 36 < U32 then 0 else 1);
    Modulo(p, 0);
    Modulo(n - (2 * t + p + 36), -1);
    Modulo(n - (2 * t + p + 36) + U32, 0);
  }

  lemma SecondFrame(n: nat)
    requires MAX_STREAM < n < U32
    ensures var t := Middle(n) + Large(n) + 12;
            && U32Of(U32Of(t) + t + GRP_HEADER_SIZE) < n
            && U32Of(U32Of(n) - U32Of(U32Of(t + 32) + t + 4)) >= GRP_HEADER_SIZE
  {
    hide U32Of;
    var t := Middle(n) + Large(n) + 12;
    Modulo(n, 0);
    Modulo(t, 0);
    Modulo(t + 32, 0);
    Modulo(2 * t + 8, 1);
    Modulo(2 * t + 36, 1);
    Modulo(n - (2 * t + 36 - U32), 0);
  }

  lemma ThirdFrame(n: nat)
    requires MAX_STREAM < n < U32
    ensures var t := n - 22;
            && U32Of(U32Of(t) + t + GRP_HEADER_SIZE) < n && U32Of(U32Of(n) - U32Of(U32Of(t) + t)) >= 40
  {
    hide U32Of;
    var t := n - 22;
    Modulo(n, 0);
    Modulo(t, 0);
    Modulo(2 * t, 1);
    Modulo(2 * t + 8, 1);
    Modulo(n - (2 * t - U32), 0);
  }

  lemma PendsAt(f: Framer, data: seq<byte>, t: nat, size: nat)
    requires Pends(f, data, t, size)
    requires U32Of(U32Of(t) + t + GRP_HEADER_SIZE) < |data| && U32Of(U32Of(|data|) - U32Of(U32Of(t) + t)) >= size
    ensures Positioned(f) && !Over(f)
  {
    hide U32Of;
  }

  /** The second header makes the sums wrap, so the loop reads on to the end and decodes the third frame too early. */
  lemma LongIsUnsafe(n: nat)
    requires MAX_STREAM < n < U32
    ensures !Fine(Trap(n))
  {
    hide Turn, Over, GuardAt, AvailableAt, Large, Middle, Trap, HeaderIn, Pends, Scanning, LogSafe, U32Of;
    var data, s, p, t := Trap(n), Start(Trap(n)), Large(n), Middle(n);
    TrapBytes(n);
    FirstFrame(n);
    SecondFrame(n);
    ThirdFrame(n);
    TrapSizes(n);
    StartScans(data);
    forall x | 0 <= x <= t - 8 || t + p + 17 <= x <= n - 30
      ensures GuardAt(n, x) && AvailableAt(n, x) >= GRP_HEADER_SIZE
    {
      TrapPositions(n, x);
    }
    ScanRun(s, 0, data, 0, t - 8);
    var i := t - 8;
    FindHeader(s, i, data, t - 8, p);
    PendsAt(Turns(s, i + 1), data, t, p);
    DecodeThenHeader(Turns(s, i + 1), data, t, p, 0);
    assert Turns(s, i + 2) == Turn(Turns(s, i + 1));
    PendsAt(Turns(s, i + 2), data, t + p + 12, 0);
    DecodeThenSkip(Turns(s, i + 2), data, t + p + 12, 0);
    assert Turns(s, i + 3) == Turn(Turns(s, i + 2));
    ScanRun(s, i + 3, data, t + p + 17, n - 30);
    var m := i + 3 + n - 30 - (t + p + 17);
    FindHeader(s, m, data, n - 30, 40);
    PendsAt(Turns(s, m + 1), data, n - 22, 40);
    DecodeTooEarly(Turns(s, m + 1), data, n - 22, 40);
    assert Turns(s, m + 2) == Turn(Turns(s, m + 1));
  }

  lemma TrapSizes(n: nat)
    requires MAX_STREAM < n < U32
    ensures 8 <= Middle(n) && Large(n) <= 65535 && Middle(n) + Large(n) + 100 <= n - 30
  {
  }

  lemma StartScans(data: seq<byte>)
    ensures Positioned(Start(data)) && Scanning(Turns(Start(data), 0), data, 0)
  {
  }

  lemma FindHeader(s: Framer, i: nat, data: seq<byte>, k: nat, size: nat)
    requires Positioned(s) && Scanning(Turns(s, i), data, k) && HeaderIn(data, k, size) && k + 8 < U32
    requires GuardAt(|data|, k) && AvailableAt(|data|, k) >= GRP_HEADER_SIZE
    ensures Pends(Turns(s, i + 1), data, k + 8, size)
  {
    hide Turn, Over, GuardAt, AvailableAt, HeaderIn, Pends, Scanning, Available;
    ScanningAt(Turns(s, i), data, k);
    HeaderTurn(Turns(s, i), data, k, size);
    assert Turns(s, i + 1) == Turn(Turns(s, i));
  }
}
