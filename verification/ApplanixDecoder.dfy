/**
 * ApplanixStringDecoder::nextString: the byte-stream state machine that cuts GRP frames out of chunks.
 * `Framer` is the value of the decoder object together with what has happened so far: all bytes the stream
 * accepted, how many of them compaction dropped, and a log of the decodes.
 */
module ApplanixDecoder {
  import opened Bytes
  import opened ByteReader
  import opened ApplanixPayloads

  const GRP_HEADER_SIZE: nat := 8
  const MAX_BUFFER: nat := 32768
  const UNKNOWN: nat := 0

  /** How far a turn of the loop can take the sum of get pointer and m_toRemove beyond the buffer's end. */
  const LAG: nat := 65559

  /** Up to this many buffered bytes the decoder's uint32_t position sums never wrap around; one more and they can. */
  const MAX_STREAM: nat := U32 - 1 - GRP_HEADER_SIZE - LAG

  /** "$GRP" */
  const GRP_START: seq<byte> := [36, 71, 82, 80]

  /** One call of a payload decoder: where its header begins in the accepted bytes, and how many were there. */
  datatype Decode = Decode(header: int, group: nat, size: nat, received: nat, message: Container)

  datatype Framer = Framer(
    bytes: seq<byte>, get: nat, failed: bool,
    foundHeader: bool, buffering: bool, payloadSize: nat, toRemove: nat, next: nat,
    sent: seq<Container>, hung: bool,
    accepted: seq<byte>, base: nat, log: seq<Decode>)

  // ---------------------------------------------------------------- the stream

  /** A conversion to, or arithmetic in, uint32_t. */
  function U32Of(x: int): nat {
    x % U32
  }

  /** Both positions read as -1 once the stream has failed. */
  function TellG(f: Framer): int {
    if f.failed then -1 else f.get
  }

  function TellP(f: Framer): int {
    if f.failed then -1 else |f.bytes|
  }

  function SeekG(f: Framer, pos: nat): Framer {
    if f.failed then f else if pos > |f.bytes| then f.(failed := true) else f.(get := pos)
  }

  /** The get pointer never leaves the buffer. */
  ghost predicate Positioned(f: Framer) {
    f.get <= |f.bytes|
  }

  /** The stream's unread part; payload decoders and header reads work on it. */
  function Unread(f: Framer): Reader
    requires Positioned(f)
  {
    Reader(f.bytes[f.get..], f.failed)
  }

  /** The stream after reads that leave r unread. */
  function Advance(f: Framer, r: Reader): Framer
    requires |r.rest| <= |f.bytes|
  {
    f.(get := |f.bytes| - |r.rest|, failed := r.failed)
  }

  // ---------------------------------------------------------------- one turn of the loop

  function LoopGuard(f: Framer): bool {
    U32Of(U32Of(TellG(f)) + f.toRemove + GRP_HEADER_SIZE) < TellP(f)
  }

  /** Put pointer minus (get pointer plus m_toRemove), in uint32_t. */
  function Available(f: Framer): nat {
    U32Of(U32Of(TellP(f)) - U32Of(U32Of(TellG(f)) + f.toRemove))
  }

  function Waiting(f: Framer): bool {
    f.buffering && Available(f) < f.payloadSize
  }

  /** Step over the frame's payload and its footer. */
  function FrameDone(f: Framer): Framer {
    f.(buffering := false, foundHeader := false, toRemove := U32Of(f.toRemove + f.payloadSize + GRP_FOOTER_SIZE),
       payloadSize := 0, next := UNKNOWN)
  }

  function EventOf(f: Framer, message: Container): Decode {
    Decode(f.base + f.toRemove - GRP_HEADER_SIZE, f.next, f.payloadSize, |f.accepted|, message)
  }

  /** Send a decoded message; r is what its decoder left unread. */
  function Deliver(f: Framer, r: Reader, message: Container): Framer
    requires |r.rest| <= |f.bytes|
  {
    Advance(f, r).(sent := f.sent + Sends(message), log := f.log + [EventOf(f, message)])
  }

  lemma ShorterPayload(r: Reader, group: nat, payloadSize: nat)
    requires Known(group)
    ensures var d := PayloadSpec(r, group, payloadSize); d.Returned? ==> |d.reader.rest| <= |r.rest|
  {
    hide PayloadSpec, Known;
    AfterPayload(r, group, payloadSize);
  }

  /** Decode the pending frame, send, and step over it. */
  function DecodePending(f: Framer): Framer
    requires Positioned(f)
  {
    var g := SeekG(f, f.toRemove);
    if !Known(f.next) then FrameDone(g)
    else
      ShorterPayload(Unread(g), f.next, f.payloadSize);
      match PayloadSpec(Unread(g), f.next, f.payloadSize)
      case NeverReturns => g.(hung := true)
      case Returned(r, message) =>
        FrameDone(Deliver(g, r, message))
  }

  /** Try to read a header at m_toRemove. */
  function TryHeader(f: Framer): Framer
    requires Positioned(f)
  {
    var g := SeekG(f, f.toRemove);
    var (r1, start) := Read(Unread(g), 4);
    var (r2, group) := ReadField(r1, 2);
    var (r3, size) := ReadField(r2, 2);
    if start == GRP_START && Known(group) then
      if r2.failed then Advance(g, r2).(next := group)
      else
        Advance(g, r3).(payloadSize := size, foundHeader := true, buffering := true,
          toRemove := U32Of(g.toRemove + GRP_HEADER_SIZE), next := group)
    else Advance(g, r2).(toRemove := U32Of(g.toRemove + 1))
  }

  /** A turn that does not break out of the loop. */
  function Turn(f: Framer): Framer
    requires Positioned(f)
  {
    var f1 := if f.buffering then DecodePending(f) else f;
    TurnPositioned(f);
    if !f1.hung && !f1.foundHeader && Available(f1) >= GRP_HEADER_SIZE then TryHeader(f1) else f1
  }

  lemma TurnPositioned(f: Framer)
    requires Positioned(f)
    ensures f.buffering ==> Positioned(DecodePending(f))
  {
  }

  // ---------------------------------------------------------------- the invariant

  ghost predicate HeaderAt(accepted: seq<byte>, at: int, group: nat, size: nat) {
    && 0 <= at && at + GRP_HEADER_SIZE <= |accepted|
    && accepted[at..at + 4] == GRP_START
    && LittleEndian(accepted[at + 4..at + 6]) == group && Known(group)
    && LittleEndian(accepted[at + 6..at + 8]) == size
  }

  /**
   * A decode starts right behind a header for its decoder, whose announced payload has been received, and
   * its message is what that decoder makes of the accepted bytes.
   */
  ghost predicate SafeDecode(e: Decode, accepted: seq<byte>) {
    && HeaderAt(accepted, e.header, e.group, e.size)
    && e.header + GRP_HEADER_SIZE + e.size <= e.received <= |accepted|
    && var d := PayloadSpec(Reader(accepted[e.header + GRP_HEADER_SIZE..e.received], false), e.group, e.size);
       d.Returned? && d.message == e.message
  }

  /** No two decodes share a header: each begins behind the previous header. */
  ghost predicate LogSafe(log: seq<Decode>, accepted: seq<byte>) {
    && (forall i :: 0 <= i < |log| ==> SafeDecode(log[i], accepted))
    && (forall i, j :: 0 <= i < j < |log| ==> log[i].header + GRP_HEADER_SIZE <= log[j].header)
  }

  function SentBy(log: seq<Decode>): seq<Container> {
    if log == [] then [] else SentBy(log[..|log| - 1]) + Sends(log[|log| - 1].message)
  }

  /** The first accepted byte that no logged decode has passed. */
  function Frontier(log: seq<Decode>): int {
    if log == [] then 0 else log[|log| - 1].header + GRP_HEADER_SIZE
  }

  /**
   * Where the two positions are. A turn that starts with room for a header behind their sum leaves the sum at most
   * LAG behind the buffer's end.
   */
  ghost predicate Placed(f: Framer) {
    && f.get + f.toRemove <= |f.bytes| + LAG && 2 * f.toRemove <= |f.bytes| + LAG
    && f.get <= f.toRemove + 0xFFFF && (f.toRemove > 0 ==> f.get > 0)
    && (!f.buffering && f.get + f.toRemove + GRP_HEADER_SIZE < |f.bytes| ==> HeaderRoom(f))
  }

  /** A header found at m_toRemove would keep that. */
  ghost predicate HeaderRoom(f: Framer) {
    2 * f.toRemove + 2 * GRP_HEADER_SIZE <= |f.bytes| + LAG
  }

  /** The buffer is the accepted bytes minus what compaction cut, and the counters stay where no sum wraps. */
  ghost predicate Bounded(f: Framer) {
    && Positioned(f) && |f.bytes| <= MAX_STREAM && f.toRemove <= |f.bytes| + 8 && f.payloadSize < 0x1_0000
    && f.foundHeader == f.buffering && (!f.failed ==> Placed(f))
    && f.base <= |f.accepted| && f.bytes == f.accepted[f.base..]
  }

  ghost predicate Inv(f: Framer) {
    && Bounded(f)
    && LogSafe(f.log, f.accepted) && f.sent == SentBy(f.log)
    && (!f.failed && f.buffering ==>
          && f.get == f.toRemove
          && HeaderAt(f.accepted, f.base + f.toRemove - GRP_HEADER_SIZE, f.next, f.payloadSize)
          && Frontier(f.log) <= f.base + f.toRemove - GRP_HEADER_SIZE)
    && (!f.failed && !f.buffering ==> Frontier(f.log) <= f.base + f.toRemove && Frontier(f.log) <= f.base + f.get)
  }

  // ---------------------------------------------------------------- one turn keeps it

  /** While the loop guard holds, no uint32_t sum has wrapped. */
  lemma GuardMeans(f: Framer)
    requires Bounded(f) && LoopGuard(f)
    ensures !f.failed && f.get + f.toRemove + 8 < |f.bytes|
    ensures Available(f) == |f.bytes| - f.get - f.toRemove
  {
  }

  lemma LogGrows(log: seq<Decode>, e: Decode, accepted: seq<byte>)
    requires LogSafe(log, accepted) && SafeDecode(e, accepted) && Frontier(log) <= e.header
    ensures LogSafe(log + [e], accepted) && SentBy(log + [e]) == SentBy(log) + Sends(e.message)
    ensures Frontier(log + [e]) == e.header + GRP_HEADER_SIZE
  {
    hide SafeDecode, Sends;
    assert (log + [e])[..|log|] == log;
  }

  /** A pending frame with enough bytes behind it is decoded safely, or its decoder never returns. */
  lemma PendingIsSafe(f: Framer)
    requires Inv(f) && LoopGuard(f) && !Waiting(f) && f.buffering
    ensures !f.failed && Known(f.next) && SeekG(f, f.toRemove) == f
    ensures var d := PayloadSpec(Unread(f), f.next, f.payloadSize);
            d.Returned? ==> SafeDecode(EventOf(f, d.message), f.accepted)
    ensures f.get == f.toRemove && 2 * f.toRemove + f.payloadSize <= |f.bytes|
  {
    hide PayloadSpec, Known, LogSafe, SentBy;
    GuardMeans(f);
    var at := f.base + f.toRemove;
    assert f.bytes[f.get..] == f.accepted[at..|f.accepted|];
  }

  lemma DecodeKeepsInv(f: Framer)
    requires Inv(f) && !f.hung && LoopGuard(f) && !Waiting(f) && f.buffering
    ensures var f1 := DecodePending(f);
            && (f1.hung ==> f1 == f.(hung := true))
            && (!f1.hung ==>
                  && Inv(f1) && !f1.buffering && f1.accepted == f.accepted && f1.bytes == f.bytes
                  && f1.toRemove == f.toRemove + f.payloadSize + GRP_FOOTER_SIZE <= |f1.bytes| + 4
                  && HeaderRoom(f1)
                  && |f1.log| == |f.log| + 1 && f1.log[..|f.log|] == f.log
                  && f1.log[|f.log|].header == f.base + f.toRemove - GRP_HEADER_SIZE)
  {
    hide PayloadSpec, Known, LogSafe, SentBy, Sends, HeaderAt, SafeDecode, LoopGuard, Waiting, Bounded;
    assert Bounded(f);
    PendingIsSafe(f);
    assert Positioned(f) && f.payloadSize < 0x1_0000 by { BoundedMeans(f); }
    AfterPayload(Unread(f), f.next, f.payloadSize);
    PayloadUses(Unread(f), f.next, f.payloadSize);
    GuardMeans(f);
    var d := PayloadSpec(Unread(f), f.next, f.payloadSize);
    if d.Returned? {
      LogGrows(f.log, EventOf(f, d.message), f.accepted);
      DeliveredBounded(f, d.reader, d.message);
    }
  }

  lemma BoundedMeans(f: Framer)
    requires Bounded(f)
    ensures Positioned(f) && f.payloadSize < 0x1_0000
  {
  }

  /** Where a decoder that consumed a sensible number of bytes leaves the two positions. */
  lemma DeliveredBounded(f: Framer, r: Reader, message: Container)
    requires Bounded(f) && !f.failed && f.buffering && f.get == f.toRemove && 2 * f.toRemove + f.payloadSize <= |f.bytes|
    requires |r.rest| <= |f.bytes| - f.get && (!r.failed ==> 0 < |f.bytes| - f.get - |r.rest| < 0x1_0000)
    ensures var f1 := FrameDone(Deliver(f, r, message));
            && Bounded(f1) && HeaderRoom(f1) && f1.toRemove == f.toRemove + f.payloadSize + GRP_FOOTER_SIZE <= |f1.bytes| + 4
            && f1.get <= |f1.bytes|
  {
    hide Sends;
  }

  /** The three ends of a header attempt: nothing known and one byte further, a header pending, or a failed stream. */
  lemma TryHeaderCases(f: Framer)
    requires Bounded(f) && f.toRemove <= |f.bytes| + 4
    ensures var f1, at := TryHeader(f), f.toRemove;
            if !f.failed && at + 6 <= |f.bytes|
               && !(f.bytes[at..at + 4] == GRP_START && Known(LittleEndian(f.bytes[at + 4..at + 6]))) then
              f1 == f.(get := at + 6, toRemove := at + 1)
            else if !f.failed && at + 8 <= |f.bytes| then
              f1 == f.(get := at + 8, toRemove := at + 8, foundHeader := true, buffering := true,
                       next := LittleEndian(f.bytes[at + 4..at + 6]), payloadSize := LittleEndian(f.bytes[at + 6..at + 8]))
            else
              && f1.failed && f1.get <= |f.bytes| && f1.toRemove <= |f.bytes| + 8 && f1.payloadSize < 0x1_0000
              && f1.foundHeader == f1.buffering
              && f1 == f.(failed := true, get := f1.get, toRemove := f1.toRemove, foundHeader := f1.foundHeader,
                          buffering := f1.buffering, payloadSize := f1.payloadSize, next := f1.next)
  {
    hide LittleEndian, Known, TryHeader;
    var at := f.toRemove;
    if !f.failed && at + 6 <= |f.bytes|
       && !(f.bytes[at..at + 4] == GRP_START && Known(LittleEndian(f.bytes[at + 4..at + 6]))) {
      HeaderUnknown(f);
    } else if !f.failed && at + 8 <= |f.bytes| {
      HeaderFound(f);
    } else {
      HeaderFails(f);
    }
  }

  lemma HeaderUnknown(f: Framer)
    requires Positioned(f) && !f.failed && f.toRemove + 6 <= |f.bytes| && f.toRemove + 1 < U32
    requires !(f.bytes[f.toRemove..f.toRemove + 4] == GRP_START
               && Known(LittleEndian(f.bytes[f.toRemove + 4..f.toRemove + 6])))
    ensures TryHeader(f) == f.(get := f.toRemove + 6, toRemove := f.toRemove + 1)
  {
    hide LittleEndian, Known, Read;
    var g := SeekG(f, f.toRemove);
    HeaderReads(Unread(g), g.bytes, g.get);
  }

  lemma HeaderFound(f: Framer)
    requires Positioned(f) && !f.failed && f.toRemove + 8 <= |f.bytes| && f.toRemove + 8 < U32
    requires f.bytes[f.toRemove..f.toRemove + 4] == GRP_START
             && Known(LittleEndian(f.bytes[f.toRemove + 4..f.toRemove + 6]))
    ensures var at := f.toRemove;
            TryHeader(f) == f.(get := at + 8, toRemove := at + 8, foundHeader := true, buffering := true,
              next := LittleEndian(f.bytes[at + 4..at + 6]), payloadSize := LittleEndian(f.bytes[at + 6..at + 8]))
  {
    hide LittleEndian, Known, Read;
    var g := SeekG(f, f.toRemove);
    HeaderReads(Unread(g), g.bytes, g.get);
  }

  lemma HeaderFails(f: Framer)
    requires Bounded(f) && f.toRemove <= |f.bytes| + 4
    requires f.failed || f.toRemove + 6 > |f.bytes|
             || (f.toRemove + 8 > |f.bytes| && f.bytes[f.toRemove..f.toRemove + 4] == GRP_START
                 && Known(LittleEndian(f.bytes[f.toRemove + 4..f.toRemove + 6])))
    ensures var f1 := TryHeader(f);
            && f1.failed && f1.get <= |f.bytes| && f1.toRemove <= |f.bytes| + 8 && f1.payloadSize < 0x1_0000
            && f1.foundHeader == f1.buffering
            && f1 == f.(failed := true, get := f1.get, toRemove := f1.toRemove, foundHeader := f1.foundHeader,
                        buffering := f1.buffering, payloadSize := f1.payloadSize, next := f1.next)
  {
    hide LittleEndian, Known, Read;
    var g := SeekG(f, f.toRemove);
    HeaderReads(Unread(g), g.bytes, g.get);
    LittleEndianBound(Read(Read(Read(Unread(g), 4).0, 2).0, 2).1);
  }

  /** The three reads of a header attempt that starts with bytes[at..] unread. */
  lemma HeaderReads(r: Reader, bytes: seq<byte>, at: nat)
    requires at <= |bytes| && r.rest == bytes[at..]
    ensures var (r1, start) := Read(r, 4);
            var (r2, group) := Read(r1, 2);
            var (r3, size) := Read(r2, 2);
            && |size| <= 2 && |r2.rest| <= |bytes| && |r3.rest| <= |bytes|
            && r2.failed == (r.failed || at + 6 > |bytes|) && r3.failed == (r.failed || at + 8 > |bytes|)
            && (!r2.failed ==> start == bytes[at..at + 4] && group == bytes[at + 4..at + 6] && |r2.rest| == |bytes| - at - 6)
            && (!r3.failed ==> size == bytes[at + 6..at + 8] && |r3.rest| == |bytes| - at - 8)
  {
  }

  /** A header attempt moves m_toRemove on, and on success leaves a header of the accepted bytes pending. */
  lemma HeaderKeepsInv(f: Framer)
    requires Inv(f) && !f.buffering && f.toRemove <= |f.bytes| + 4 && (!f.failed ==> HeaderRoom(f))
    ensures var f1 := TryHeader(f);
            && Inv(f1) && f1.accepted == f.accepted && f1.bytes == f.bytes && f1.log == f.log && f1.hung == f.hung
            && (!f1.failed ==> f1.toRemove > f.toRemove)
  {
    hide LogSafe, SentBy, Known, LittleEndian, TryHeader;
    TryHeaderCases(f);
    var at := f.toRemove;
    if !f.failed && at + 8 <= |f.bytes| {
      LittleEndianBound(f.bytes[at + 6..at + 8]);
      HeaderBytes(f);
    }
  }

  /** The eight bytes at m_toRemove, seen in the buffer and in the accepted bytes. */
  lemma HeaderBytes(f: Framer)
    requires Bounded(f) && f.toRemove + 8 <= |f.bytes|
    ensures var at, a := f.toRemove, f.base + f.toRemove;
            && f.bytes[at..at + 4] == f.accepted[a..a + 4]
            && f.bytes[at + 4..at + 6] == f.accepted[a + 4..a + 6]
            && f.bytes[at + 6..at + 8] == f.accepted[a + 6..a + 8]
  {
  }

  /** A turn of the loop keeps the invariant and either moves m_toRemove on or leaves the stream failed. */
  lemma TurnKeepsInv(f: Framer)
    requires Inv(f) && !f.hung && LoopGuard(f) && !Waiting(f)
    ensures var f1 := Turn(f);
            && Inv(f1) && f1.accepted == f.accepted && f1.bytes == f.bytes && f1.base == f.base
            && (f1.hung || f1.failed || f1.toRemove > f.toRemove)
            && |f.log| <= |f1.log| && f1.log[..|f.log|] == f.log
  {
    hide LogSafe, SentBy, HeaderAt, TryHeader, DecodePending;
    GuardMeans(f);
    if f.buffering {
      DecodeKeepsInv(f);
      var f1 := DecodePending(f);
      if !f1.hung && Available(f1) >= GRP_HEADER_SIZE {
        HeaderKeepsInv(f1);
        TryHeaderCases(f1);
      }
    } else {
      HeaderKeepsInv(f);
      TryHeaderCases(f);
    }
  }

  // ---------------------------------------------------------------- a whole call

  /** What bounds the loop: the bytes m_toRemove has not reached. */
  function LeftToScan(f: Framer): int {
    if f.failed || f.hung then 0 else |f.bytes| + 9 - f.toRemove
  }

  /** The loop of nextString. */
  ghost function Drain(f: Framer): (r: Framer)
    requires Inv(f)
    ensures Inv(r)
    decreases LeftToScan(f)
  {
    if f.hung || !LoopGuard(f) || Waiting(f) then f
    else
      TurnShrinks(f);
      Drain(Turn(f))
  }

  lemma TurnShrinks(f: Framer)
    requires Inv(f) && !f.hung && LoopGuard(f) && !Waiting(f)
    ensures Positioned(f) && Inv(Turn(f)) && 0 <= LeftToScan(Turn(f)) < LeftToScan(f)
  {
    hide LogSafe, SentBy, HeaderAt, Turn;
    TurnKeepsInv(f);
    GuardMeans(f);
  }

  ghost predicate Extends(f: Framer, r: Framer) {
    |f.log| <= |r.log| && r.log[..|f.log|] == f.log
  }

  lemma {:induction false} DrainKeeps(f: Framer)
    requires Inv(f)
    ensures var r := Drain(f);
            r.accepted == f.accepted && r.base == f.base && r.bytes == f.bytes && Extends(f, r)
    decreases LeftToScan(f)
  {
    hide Inv, Turn, LoopGuard, Waiting, LeftToScan;
    if !(f.hung || !LoopGuard(f) || Waiting(f)) {
      TurnShrinks(f);
      TurnKeepsInv(f);
      var f1 := Turn(f);
      DrainKeeps(f1);
      assert Drain(f).log[..|f.log|] == Drain(f).log[..|f1.log|][..|f.log|];
    }
  }

  function Accept(f: Framer, data: seq<byte>): Framer {
    if f.failed then f else f.(bytes := f.bytes + data, accepted := f.accepted + data)
  }

  /** Drop what the get pointer has passed, but not too often. */
  function Compact(f: Framer): Framer
    requires Positioned(f)
  {
    if TellG(f) > 0 && f.toRemove > MAX_BUFFER then
      f.(bytes := f.bytes[f.get..], base := f.base + f.get, get := 0, toRemove := 0)
    else f
  }

  /** Between calls little has been scanned, or the buffer would have been cut. */
  ghost predicate Resting(f: Framer) {
    Inv(f) && (f.failed || f.hung || f.toRemove <= MAX_BUFFER)
  }

  /** The stream has room: the buffer and the chunk stay below the size at which position sums can wrap. */
  ghost predicate Room(f: Framer, data: seq<byte>) {
    f.failed || |f.bytes| + |data| <= MAX_STREAM
  }

  lemma SafeDecodeGrows(e: Decode, accepted: seq<byte>, data: seq<byte>)
    requires SafeDecode(e, accepted)
    ensures SafeDecode(e, accepted + data)
  {
    hide PayloadSpec, LittleEndian, Known;
    var all, h := accepted + data, e.header;
    assert all[h..h + 4] == accepted[h..h + 4];
    assert all[h + 4..h + 6] == accepted[h + 4..h + 6];
    assert all[h + 6..h + 8] == accepted[h + 6..h + 8];
    assert all[h + 8..e.received] == accepted[h + 8..e.received];
  }

  lemma HeaderAtGrows(accepted: seq<byte>, data: seq<byte>, at: int, group: nat, size: nat)
    requires HeaderAt(accepted, at, group, size)
    ensures HeaderAt(accepted + data, at, group, size)
  {
    hide LittleEndian, Known;
    var all := accepted + data;
    assert all[at..at + 4] == accepted[at..at + 4];
    assert all[at + 4..at + 6] == accepted[at + 4..at + 6];
    assert all[at + 6..at + 8] == accepted[at + 6..at + 8];
  }

  lemma AcceptKeepsInv(f: Framer, data: seq<byte>)
    requires Resting(f) && !f.hung && Room(f, data)
    ensures Inv(SeekG(Accept(f, data), f.toRemove))
  {
    hide SafeDecode, HeaderAt, SentBy;
    if !f.failed {
      var f1 := SeekG(Accept(f, data), f.toRemove);
      assert (f.accepted + data)[f.base..] == f.bytes + data;
      forall i | 0 <= i < |f.log| ensures SafeDecode(f.log[i], f1.accepted) {
        SafeDecodeGrows(f.log[i], f.accepted, data);
      }
      if f.buffering {
        HeaderAtGrows(f.accepted, data, f.base + f.toRemove - GRP_HEADER_SIZE, f.next, f.payloadSize);
      }
    }
  }

  lemma InvPositioned(f: Framer)
    requires Inv(f)
    ensures Positioned(f)
  {
  }

  lemma CompactKeepsInv(f: Framer)
    requires Inv(f)
    ensures Resting(Compact(f))
  {
    hide LogSafe, HeaderAt, SentBy;
    assert f.bytes[f.get..] == f.accepted[f.base + f.get..];
  }

  /** Compaction loses no unread byte, and happens exactly behind more than 32768 scanned bytes if some were read. */
  lemma CompactKeepsUnread(f: Framer)
    requires Inv(f)
    ensures Positioned(f) && Positioned(Compact(f)) && Unread(Compact(f)) == Unread(f)
    ensures Compact(f).accepted == f.accepted && Compact(f).base + Compact(f).get == f.base + f.get
    ensures if !f.failed && f.get > 0 && f.toRemove > 32768 then Compact(f).get == 0 && Compact(f).toRemove == 0 else Compact(f) == f
  {
    hide LogSafe, HeaderAt, SentBy;
  }

  /** nextString as a function of the object's value. */
  ghost function NextStringSpec(f: Framer, data: seq<byte>): (r: Framer)
    requires Resting(f) && !f.hung && Room(f, data)
    ensures Resting(r)
  {
    hide LogSafe, HeaderAt, SentBy, Drain, LoopGuard, Waiting;
    AcceptKeepsInv(f, data);
    var f1 := Drain(SeekG(Accept(f, data), f.toRemove));
    CompactKeepsInv(f1);
    if f1.hung then f1 else Compact(f1)
  }

  lemma NextStringKeeps(f: Framer, data: seq<byte>)
    requires Resting(f) && !f.hung && Room(f, data)
    ensures var r := NextStringSpec(f, data);
            r.accepted == (if f.failed then f.accepted else f.accepted + data) && Extends(f, r)
  {
    hide LogSafe, HeaderAt, SentBy, Drain, LoopGuard, Waiting;
    AcceptKeepsInv(f, data);
    DrainKeeps(SeekG(Accept(f, data), f.toRemove));
  }

  const INITIAL := Framer([], 0, false, false, false, 0, 0, UNKNOWN, [], false, [], 0, [])

  lemma InitialInv()
    ensures Resting(INITIAL)
  {
  }

  lemma DrainTurns(f: Framer)
    requires Inv(f) && !f.hung && LoopGuard(f) && !Waiting(f)
    ensures Positioned(f) && Inv(Turn(f)) && Drain(f) == Drain(Turn(f))
  {
    hide Inv, Turn, LoopGuard, Waiting;
    TurnShrinks(f);
  }

  lemma DrainStops(f: Framer)
    requires Inv(f) && (f.hung || !LoopGuard(f) || Waiting(f))
    ensures Drain(f) == f
  {
  }

  // ---------------------------------------------------------------- the class

  class ApplanixStringDecoder {
    // m_buffer
    var bytes: seq<byte>
    var get: nat
    var failed: bool

    var foundHeader: bool
    var buffering: bool
    var payloadSize: nat
    var toRemove: nat
    var nextMessage: nat
    var conference: seq<Container>  // what m_conference.send was given

    ghost var hung: bool
    ghost var accepted: seq<byte>
    ghost var base: nat
    ghost var log: seq<Decode>

    ghost function Value(): Framer
      reads this
    {
      Framer(bytes, get, failed, foundHeader, buffering, payloadSize, toRemove, nextMessage, conference, hung,
             accepted, base, log)
    }

    constructor ()
      ensures Value() == INITIAL && Resting(Value())
    {
      bytes, get, failed := [], 0, false;
      foundHeader, buffering, payloadSize, toRemove := false, false, 0, 0;
      nextMessage, conference := UNKNOWN, [];
      hung, accepted, base, log := false, [], 0, [];
      new;
      InitialInv();
    }

    method SeekGet(pos: nat)
      modifies this`get, this`failed
      ensures Value() == SeekG(old(Value()), pos)
    {
      if !failed {
        if pos > |bytes| { failed := true; } else { get := pos; }
      }
    }

    /** buffer.read into a zeroed little-endian variable. */
    method ReadBytes(n: nat) returns (bs: seq<byte>)
      requires Positioned(Value())
      modifies this`get, this`failed
      ensures Positioned(Value())
      ensures var (r, got) := Read(Unread(old(Value())), n);
              Value() == Advance(old(Value()), r) && bs == got && Unread(Value()) == r
    {
      if failed {
        bs := [];
      } else if get + n <= |bytes| {
        bs := bytes[get..get + n];
        get := get + n;
      } else {
        bs := bytes[get..];
        get, failed := |bytes|, true;
      }
    }

    method PrepareReadingBuffer()
      requires Positioned(Value())
      modifies this`get, this`failed, this`payloadSize, this`foundHeader, this`buffering, this`toRemove
      ensures var f := old(Value());
              var (r, size) := ReadField(Unread(f), 2);
              Value() == if f.failed then f
                         else Advance(f, r).(payloadSize := size, foundHeader := true, buffering := true,
                                             toRemove := U32Of(f.toRemove + GRP_HEADER_SIZE))
    {
      if !failed {
        var size := ReadBytes(2);
        payloadSize := LittleEndian(size);
        foundHeader, buffering := true, true;
        toRemove := U32Of(toRemove + GRP_HEADER_SIZE);
      }
    }

    method TryHeaderAtToRemove()
      requires Positioned(Value())
      modifies this`get, this`failed, this`payloadSize, this`foundHeader, this`buffering, this`toRemove, this`nextMessage
      ensures Value() == TryHeader(old(Value()))
    {
      hide Known, LittleEndian;
      SeekGet(toRemove);
      var start := ReadBytes(4);
      var number := ReadBytes(2);
      var group := LittleEndian(number);
      if start == GRP_START && Known(group) {
        PrepareReadingBuffer();
        nextMessage := group;
      } else {
        toRemove := U32Of(toRemove + 1);
      }
    }

    method Send(reader: Reader, message: Container)
      requires |reader.rest| <= |bytes|
      modifies this`log, this`get, this`failed, this`conference
      ensures Value() == Deliver(old(Value()), reader, message)
    {
      log := log + [EventOf(Value(), message)];
      get, failed := |bytes| - |reader.rest|, reader.failed;
      conference := conference + Sends(message);
    }

    method FinishFrame()
      modifies this`buffering, this`foundHeader, this`toRemove, this`payloadSize, this`nextMessage
      ensures Value() == FrameDone(old(Value()))
    {
      buffering, foundHeader := false, false;
      toRemove := U32Of(toRemove + payloadSize + GRP_FOOTER_SIZE);
      payloadSize := 0;
      nextMessage := UNKNOWN;
    }

    /** The branch that decodes a complete frame; false if the payload decoder does not return. */
    method DecodeFrame() returns (returned: bool)
      requires Positioned(Value()) && !hung
      modifies this
      ensures Value() == DecodePending(old(Value())) && returned == !hung
    {
      hide Known, PayloadSpec, Deliver, FrameDone;
      SeekGet(toRemove);
      if Known(nextMessage) {
        var d := DecodePayload(Reader(bytes[get..], failed), nextMessage, payloadSize);
        ShorterPayload(Unread(Value()), nextMessage, payloadSize);
        if d.NeverReturns? {
          hung := true;
          return false;
        }
        Send(d.reader, d.message);
      }
      FinishFrame();
      assert !hung;
      returned := true;
    }

    function TellGet(): int
      reads this
    {
      if failed then -1 else get
    }

    function TellPut(): int
      reads this
    {
      if failed then -1 else |bytes|
    }

    /** Unsigned distance from get pointer plus m_toRemove to the put pointer. */
    function Ahead(): (n: nat)
      reads this
      ensures n == Available(Value())
    {
      U32Of(U32Of(TellPut()) - U32Of(U32Of(TellGet()) + toRemove))
    }

    /** The body of the loop below its first `if`, which breaks out. */
    method OneTurn() returns (returned: bool)
      requires Positioned(Value()) && !hung && !Waiting(Value())
      modifies this
      ensures Value() == Turn(old(Value())) && returned == !hung
    {
      hide DecodePending, TryHeader, U32Of;
      TurnPositioned(Value());
      if buffering && Ahead() >= payloadSize {
        returned := DecodeFrame();
        if !returned { return; }
      }
      if !foundHeader && Ahead() >= GRP_HEADER_SIZE {
        TryHeaderAtToRemove();
      }
      returned := true;
    }

    /** Discard unused data from the buffer, but avoid copying too often. */
    method DiscardRead()
      requires Positioned(Value())
      modifies this`bytes, this`base, this`get, this`toRemove, this`failed
      ensures Value() == Compact(old(Value()))
    {
      if TellGet() > 0 && toRemove > MAX_BUFFER {
        bytes, base := bytes[get..], base + get;
        get, toRemove, failed := 0, 0, false;
      }
    }

    method Append(data: seq<byte>)
      modifies this`bytes, this`accepted
      ensures Value() == Accept(old(Value()), data)
    {
      if !failed {
        bytes, accepted := bytes + data, accepted + data;
      }
    }

    /** False if a payload decoder does not return, and so neither does this call. */
    method NextString(data: seq<byte>) returns (returned: bool)
      requires Resting(Value()) && !hung && Room(Value(), data)
      modifies this
      ensures Value() == NextStringSpec(old(Value()), data) && Resting(Value())
      ensures returned == !hung
    {
      hide Inv, Turn, LeftToScan, Accept, SeekG, Compact, U32Of;
      AcceptKeepsInv(Value(), data);
      Append(data);
      SeekGet(toRemove);
      ghost var goal := Drain(Value());
      while U32Of(U32Of(TellGet()) + toRemove + GRP_HEADER_SIZE) < TellPut()
        invariant Inv(Value()) && !hung && Drain(Value()) == goal
        decreases LeftToScan(Value())
      {
        if buffering && Ahead() < payloadSize {
          break;
        }
        TurnShrinks(Value());
        DrainTurns(Value());
        returned := OneTurn();
        if !returned {
          DrainStops(Value());
          return;
        }
      }
      assert Drain(Value()) == Value();
      InvPositioned(Value());
      DiscardRead();
      returned := true;
    }
  }
}
