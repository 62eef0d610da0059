/**
 * What nextString does over whole runs: every decode of any sequence of chunks is safe and nothing is lost, a call
 * decodes the next frame exactly when enough bytes lie behind it, and how long a chunk may be.
 */
module ApplanixRuns {
  import opened Bytes
  import opened ByteReader
  import opened ApplanixPayloads
  import opened ApplanixDecoder

  // ---------------------------------------------------------------- the buffer stays small

  /** What compaction can leave behind beyond the length of the longest chunk. */
  const SLACK: nat := 196630

  /** Chunks up to this length (2^31 - 131099) never fill the buffer up to MAX_STREAM. */
  const MAX_CHUNK: nat := (MAX_STREAM - SLACK) / 2

  ghost predicate Low(f: Framer) {
    f.failed || f.hung || |f.bytes| <= MAX_CHUNK + SLACK
  }

  /** Where the loop ends: little is left behind the sum of the two positions. */
  lemma {:induction false} DrainEnds(f: Framer)
    requires Inv(f)
    ensures var r := Drain(f); r.hung || !LoopGuard(r) || Waiting(r)
    decreases LeftToScan(f)
  {
    hide Inv, Turn, LoopGuard, Waiting, LeftToScan;
    if !(f.hung || !LoopGuard(f) || Waiting(f)) {
      TurnShrinks(f);
      DrainEnds(Turn(f));
    }
  }

  lemma LittleLeft(r: Framer)
    requires Bounded(r) && (!LoopGuard(r) || Waiting(r)) && !r.failed
    ensures |r.bytes| <= r.get + r.toRemove + 0xFFFF
  {
    if LoopGuard(r) {
      GuardMeans(r);
    }
  }

  /** A chunk of allowed length always has room, and the call leaves the buffer low again. */
  lemma StaysLow(f: Framer, data: seq<byte>)
    requires Resting(f) && Low(f) && !f.hung && |data| <= MAX_CHUNK
    ensures Room(f, data) && Low(NextStringSpec(f, data))
  {
    hide LogSafe, SentBy, HeaderAt, Drain, LoopGuard, Waiting;
    AcceptKeepsInv(f, data);
    var f0 := SeekG(Accept(f, data), f.toRemove);
    var f1 := Drain(f0);
    DrainKeeps(f0);
    DrainEnds(f0);
    if !f1.hung && !f1.failed {
      LittleLeft(f1);
    }
  }

  // ---------------------------------------------------------------- whole runs

  ghost predicate Short(chunks: seq<seq<byte>>) {
    forall i :: 0 <= i < |chunks| ==> |chunks[i]| <= MAX_CHUNK
  }

  /** Any sequence of chunks, until a payload decoder does not return. */
  ghost function Feed(f: Framer, chunks: seq<seq<byte>>): (r: Framer)
    requires Resting(f) && Low(f) && Short(chunks)
    ensures Resting(r)
    decreases |chunks|
  {
    hide Resting, Low;
    if chunks == [] || f.hung then f
    else
      StaysLow(f, chunks[0]);
      Feed(NextStringSpec(f, chunks[0]), chunks[1..])
  }

  function Concat(chunks: seq<seq<byte>>): seq<byte> {
    if chunks == [] then [] else chunks[0] + Concat(chunks[1..])
  }

  /** A run accepts a prefix of its input, and all of it unless it hangs or fails. */
  lemma {:induction false} FeedAccepts(f: Framer, chunks: seq<seq<byte>>)
    requires Resting(f) && Low(f) && Short(chunks)
    ensures var r := Feed(f, chunks);
            && f.accepted <= r.accepted <= f.accepted + Concat(chunks)
            && (r.hung || r.failed || r.accepted == f.accepted + Concat(chunks))
    decreases |chunks|
  {
    hide Resting, Low, NextStringSpec;
    if chunks == [] {
      assert f.accepted + Concat(chunks) == f.accepted;
    } else if !f.hung {
      StaysLow(f, chunks[0]);
      var f1 := NextStringSpec(f, chunks[0]);
      NextStringKeeps(f, chunks[0]);
      if f.failed {
        FailedStaysSilent(f, chunks);
      } else {
        FeedAccepts(f1, chunks[1..]);
        Regroup(f.accepted, chunks[0], Concat(chunks[1..]));
      }
    }
  }

  lemma Regroup(a: seq<byte>, b: seq<byte>, c: seq<byte>)
    ensures a + b + c == a + (b + c)
  {
  }

  /** A failed stream accepts nothing, decodes nothing and sends nothing, whatever arrives. */
  lemma {:induction false} FailedStaysSilent(f: Framer, chunks: seq<seq<byte>>)
    requires Resting(f) && Low(f) && Short(chunks) && f.failed
    ensures Feed(f, chunks) == f
    decreases |chunks|
  {
    hide Resting, Low;
    if !(chunks == [] || f.hung) {
      StaysLow(f, chunks[0]);
      assert NextStringSpec(f, chunks[0]) == f;
      FailedStaysSilent(f, chunks[1..]);
    }
  }

  /**
   * Whole-run safety: over any sequence of chunks of allowed length and across compactions every decode starts right
   * behind an 8-byte header in the accepted input for its decoder, with the announced payload received; successive
   * headers lie at least 8 bytes apart, so no frame is decoded twice; what was sent is exactly what was decoded; and
   * all input is accepted unless a payload decoder does not return or a read ran past the end.
   */
  lemma RunIsSafe(chunks: seq<seq<byte>>)
    requires Short(chunks)
    ensures Resting(INITIAL) && Low(INITIAL)
    ensures var f := Feed(INITIAL, chunks);
            && f.accepted <= Concat(chunks)
            && (f.hung || f.failed || f.accepted == Concat(chunks))
            && f.sent == SentBy(f.log)
            && (forall i :: 0 <= i < |f.log| ==> SafeDecode(f.log[i], f.accepted))
            && (forall i, j :: 0 <= i < j < |f.log| ==> f.log[i].header + GRP_HEADER_SIZE <= f.log[j].header)
  {
    hide SafeDecode;
    InitialInv();
    FeedAccepts(INITIAL, chunks);
    assert INITIAL.accepted + Concat(chunks) == Concat(chunks);
  }

  // ---------------------------------------------------------------- when a frame is decoded

  /** A header that the decoder takes for one. */
  predicate KnownHeader(b: seq<byte>, k: nat) {
    k + 6 <= |b| && b[k..k + 4] == GRP_START && Known(LittleEndian(b[k + 4..k + 6]))
  }

  /** The loop starts with no frame pending. */
  ghost predicate Started(f: Framer) {
    Inv(f) && !f.failed && !f.hung && !f.buffering && f.get == f.toRemove
  }

  /** The decoder's value after scanning from f on to position k without meeting a header. */
  function Scanned(f: Framer, k: nat): Framer {
    if k == f.toRemove then f else f.(get := k + 5, toRemove := k)
  }

  lemma ScanStep(f: Framer, k: nat)
    requires Started(f) && f.toRemove <= k && Inv(Scanned(f, k)) && LoopGuard(Scanned(f, k)) && !KnownHeader(f.bytes, k)
    ensures var s := Scanned(f, k);
            && !s.hung && !Waiting(s) && Turn(s) == Scanned(f, k + 1)
            && s.get + k + 8 < |f.bytes|
  {
    hide LogSafe, SentBy, HeaderAt, TryHeader, LoopGuard, Available, Known;
    var s := Scanned(f, k);
    GuardMeans(s);
    TryHeaderCases(s);
  }

  /** Positions without a known header are passed one by one, as far as the guard lets the loop go. */
  lemma {:induction false} ScanSkips(f: Framer, k: nat, j: nat)
    requires Started(f) && f.toRemove <= k <= j && Inv(Scanned(f, k))
    requires forall i :: k <= i < j ==> !KnownHeader(f.bytes, i)
    ensures k == j || 2 * j + 11 < |f.bytes| ==> Inv(Scanned(f, j)) && Drain(Scanned(f, k)) == Drain(Scanned(f, j))
    ensures k < j && 2 * j + 11 >= |f.bytes| ==> Drain(Scanned(f, k)).log == f.log && !Drain(Scanned(f, k)).hung
    decreases j - k
  {
    hide Drain, Inv, LoopGuard, Waiting, Turn, KnownHeader;
    if k < j {
      if !LoopGuard(Scanned(f, k)) {
        ScanGuard(f, k);
        DrainStops(Scanned(f, k));
      } else {
        ScanStep(f, k);
        DrainTurns(Scanned(f, k));
        if k + 1 == j && 2 * j + 11 >= |f.bytes| {
          ScanGuard(f, j);
          DrainStops(Scanned(f, j));
        } else {
          ScanSkips(f, k + 1, j);
        }
      }
    }
  }

  lemma ScanGuard(f: Framer, k: nat)
    requires Started(f) && f.toRemove <= k && Inv(Scanned(f, k))
    ensures LoopGuard(Scanned(f, k)) <==> Scanned(f, k).get + k + 8 < |f.bytes|
  {
    hide LogSafe, SentBy, HeaderAt;
  }

  /** The frame at j pends. */
  function Pending(f: Framer, j: nat): Framer
    requires j + 8 <= |f.bytes|
  {
    f.(get := j + 8, toRemove := j + 8, foundHeader := true, buffering := true,
       next := LittleEndian(f.bytes[j + 4..j + 6]), payloadSize := LittleEndian(f.bytes[j + 6..j + 8]))
  }

  lemma HeaderPends(f: Framer, j: nat)
    requires Started(f) && f.toRemove <= j && Inv(Scanned(f, j)) && LoopGuard(Scanned(f, j))
    requires j + 8 <= |f.bytes| && KnownHeader(f.bytes, j)
    ensures Inv(Pending(f, j)) && Drain(Scanned(f, j)) == Drain(Pending(f, j))
    ensures LoopGuard(Pending(f, j)) <==> 2 * j + 24 < |f.bytes|
    ensures LoopGuard(Pending(f, j)) ==> (Waiting(Pending(f, j)) <==> 2 * j + 16 + Pending(f, j).payloadSize > |f.bytes|)
  {
    hide Drain, LogSafe, SentBy, HeaderAt, Known, LittleEndian, TryHeader, LoopGuard, Available;
    var s := Scanned(f, j);
    GuardMeans(s);
    HeaderFound(s);
    TurnKeepsInv(s);
    DrainTurns(s);
    PendingGuard(Pending(f, j));
  }

  lemma PendingGuard(p: Framer)
    requires Bounded(p) && !p.failed && p.buffering && p.get == p.toRemove
    ensures LoopGuard(p) <==> 2 * p.toRemove + 8 < |p.bytes|
    ensures LoopGuard(p) ==> (Waiting(p) <==> 2 * p.toRemove + p.payloadSize > |p.bytes|)
  {
    if LoopGuard(p) {
      GuardMeans(p);
    }
  }

  /** What a call adds to the loop changes neither log nor messages. */
  lemma CallIsDrain(f: Framer, data: seq<byte>)
    requires Resting(f) && !f.hung && !f.failed && Room(f, data) && f.toRemove <= |f.bytes| + |data|
    ensures var f0 := f.(bytes := f.bytes + data, accepted := f.accepted + data, get := f.toRemove);
            && Inv(f0)
            && var r, d := NextStringSpec(f, data), Drain(f0); r.log == d.log && r.sent == d.sent && r.hung == d.hung
  {
    hide Drain, LoopGuard, Waiting, LogSafe, SentBy, HeaderAt;
    AcceptKeepsInv(f, data);
  }

  /** From a pending frame the loop decodes that frame first; or its decoder does not return. */
  lemma PendingDecodes(p: Framer)
    requires Inv(p) && !p.hung && LoopGuard(p) && !Waiting(p) && p.buffering
    ensures !p.failed && p.get == p.toRemove <= |p.bytes| && Known(p.next)
    ensures Decodes(p, Drain(p), PayloadSpec(Reader(p.bytes[p.toRemove..], false), p.next, p.payloadSize), p.base + p.toRemove - GRP_HEADER_SIZE)
  {
    hide PayloadSpec, Known, Sends, Drain, LogSafe, SentBy, HeaderAt, TryHeader;
    DrainTurns(p);
    PendingIsSafe(p);
    var d := PayloadSpec(Unread(p), p.next, p.payloadSize);
    DecodeKeepsInv(p);
    if d.Returned? {
      var t := Turn(p);
      DecodedLogKept(p);
      DrainKeeps(t);
      assert t.log == p.log + [EventOf(p, d.message)];
      assert Drain(t).log[|p.log|] == Drain(t).log[..|t.log|][|p.log|];
      assert Drain(t).log[..|p.log|] == Drain(t).log[..|t.log|][..|p.log|];
      SentOf(t);
      SentOf(Drain(t));
      SentGrows(Drain(t).log, |t.log|);
    } else {
      DrainStops(Turn(p));
    }
  }

  /** From f to r: the next decode is that of the header at `at`, with outcome d. */
  ghost predicate Decodes(f: Framer, r: Framer, d: Decoded, at: int) {
    if d.Returned? then
      && |r.log| > |f.log| && r.log[..|f.log|] == f.log
      && r.log[|f.log|] == Decode(at, f.next, f.payloadSize, |f.accepted|, d.message)
      && f.sent + Sends(d.message) <= r.sent
    else r.hung && r.log == f.log
  }

  lemma SentOf(f: Framer)
    requires Inv(f)
    ensures f.sent == SentBy(f.log)
  {
  }

  lemma DecodedLogKept(p: Framer)
    requires Inv(p) && !p.hung && LoopGuard(p) && !Waiting(p) && p.buffering
    ensures var f1 := DecodePending(p); Turn(p).log == f1.log && Turn(p).sent == f1.sent
  {
    hide LogSafe, HeaderAt, SentBy, DecodePending, TryHeader;
    DecodeKeepsInv(p);
    var f1 := DecodePending(p);
    if !f1.hung {
      TryHeaderCases(f1);
    }
  }

  lemma {:induction false} SentGrows(log: seq<Decode>, n: nat)
    requires n <= |log|
    ensures SentBy(log[..n]) <= SentBy(log)
    decreases |log|
  {
    hide Sends;
    if n == |log| {
      assert log[..n] == log;
    } else {
      SentGrows(log[..|log| - 1], n);
      assert log[..|log| - 1][..n] == log[..n];
    }
  }

  /** A call on a decoder with a pending frame decodes it exactly when the buffer then reaches far enough behind it. */
  lemma PendingFrame(f: Framer, data: seq<byte>)
    requires Resting(f) && !f.hung && !f.failed && f.buffering && Room(f, data)
    ensures var n, r := |f.bytes| + |data|, NextStringSpec(f, data);
            && f.toRemove <= n && Known(f.next)
            && if 2 * f.toRemove + 8 < n && 2 * f.toRemove + f.payloadSize <= n then
                 var d := PayloadSpec(Reader((f.bytes + data)[f.toRemove..], false), f.next, f.payloadSize);
                 Decodes(f.(accepted := f.accepted + data), r, d, f.base + f.toRemove - GRP_HEADER_SIZE)
               else r.log == f.log && r.sent == f.sent && !r.hung
  {
    hide Drain, LogSafe, SentBy, HeaderAt, LoopGuard, Available, PayloadSpec, Known, NextStringSpec, Sends;
    PendingKnown(f);
    CallIsDrain(f, data);
    var f0 := f.(bytes := f.bytes + data, accepted := f.accepted + data, get := f.toRemove);
    PendingGuard(f0);
    if LoopGuard(f0) && !Waiting(f0) {
      PendingDecodes(f0);
    } else {
      DrainStops(f0);
    }
  }

  lemma PendingKnown(f: Framer)
    requires Inv(f) && !f.failed && f.buffering
    ensures Known(f.next) && f.toRemove <= |f.bytes|
  {
    hide LogSafe, SentBy, Known;
  }

  /**
   * A call on a decoder without a pending frame decodes the frame behind the first known header of its buffer exactly
   * when the buffer reaches far enough behind that header; the source demands as many bytes again as lie before it.
   */
  lemma NextFrame(f: Framer, data: seq<byte>, j: nat)
    requires Resting(f) && !f.hung && !f.failed && !f.buffering && Room(f, data)
    requires f.toRemove <= j && j + 8 <= |f.bytes + data| && KnownHeader(f.bytes + data, j)
    requires forall i :: f.toRemove <= i < j ==> !KnownHeader(f.bytes + data, i)
    ensures var b, r := f.bytes + data, NextStringSpec(f, data);
            var group, size := LittleEndian(b[j + 4..j + 6]), LittleEndian(b[j + 6..j + 8]);
            if 2 * j + 24 < |b| && 2 * j + 16 + size <= |b| then
              var d := PayloadSpec(Reader(b[j + 8..], false), group, size);
              Decodes(f.(accepted := f.accepted + data, next := group, payloadSize := size), r, d, f.base + j)
            else r.log == f.log && r.sent == f.sent && !r.hung
  {
    hide Drain, LogSafe, SentBy, HeaderAt, LoopGuard, Available, PayloadSpec, Known, NextStringSpec, Sends, LittleEndian, KnownHeader, Waiting;
    CallIsDrain(f, data);
    var f0 := f.(bytes := f.bytes + data, accepted := f.accepted + data, get := f.toRemove);
    assert Scanned(f0, f0.toRemove) == f0;
    ScanSkips(f0, f0.toRemove, j);
    if f0.toRemove == j || 2 * j + 11 < |f0.bytes| {
      ScanGuard(f0, j);
      if LoopGuard(Scanned(f0, j)) {
        HeaderPends(f0, j);
        var p := Pending(f0, j);
        if LoopGuard(p) && !Waiting(p) {
          PendingDecodes(p);
        } else {
          DrainStops(p);
        }
      } else {
        DrainStops(Scanned(f0, j));
      }
    }
    if Drain(f0).log == f0.log {
      SameSent(f0, Drain(f0));
    }
  }

  lemma SameSent(f: Framer, r: Framer)
    requires Inv(f) && Inv(r) && f.log == r.log
    ensures f.sent == r.sent
  {
  }

  function FrameBytes(group: nat, payload: seq<byte>): seq<byte> {
    GRP_START + ToLittleEndian(group, 2) + ToLittleEndian(|payload|, 2) + payload
  }

  lemma FrameHeader(junk: seq<byte>, group: nat, payload: seq<byte>, tail: seq<byte>)
    requires Known(group) && |payload| < 0x1_0000
    ensures var data, j := junk + FrameBytes(group, payload) + tail, |junk|;
            && |data| == j + 8 + |payload| + |tail| && KnownHeader(data, j)
            && LittleEndian(data[j + 4..j + 6]) == group && LittleEndian(data[j + 6..j + 8]) == |payload|
            && data[j + 8..] == payload + tail
  {
    hide ToLittleEndian, LittleEndian;
    var data, j := junk + FrameBytes(group, payload) + tail, |junk|;
    assert Pow256(2) == 0x1_0000;
    LittleEndianRoundTrip(group, 2);
    LittleEndianRoundTrip(|payload|, 2);
    assert data[j..j + 4] == GRP_START;
    assert data[j + 4..j + 6] == ToLittleEndian(group, 2);
    assert data[j + 6..j + 8] == ToLittleEndian(|payload|, 2);
    assert data[j + 8..] == payload + tail;
  }

  /**
   * A fresh decoder given, in one chunk, bytes in which no known header begins, a frame of a known group, and enough
   * further bytes, decodes that frame first and sends its message - provided the payload decoder returns at all.
   */
  lemma FrameIsDecoded(junk: seq<byte>, group: nat, payload: seq<byte>, tail: seq<byte>)
    requires Known(group) && |payload| < 0x1_0000
    requires forall i :: 0 <= i < |junk| ==> !KnownHeader(junk + FrameBytes(group, payload) + tail, i)
    requires |tail| >= |junk| + 8 && |payload| + |tail| > |junk| + 16
    requires |junk| + 8 + |payload| + |tail| <= MAX_STREAM
    ensures Resting(INITIAL)
    ensures var data := junk + FrameBytes(group, payload) + tail;
            var r := NextStringSpec(INITIAL, data);
            var d := PayloadSpec(Reader(payload + tail, false), group, |payload|);
            if d.Returned? then
              |r.log| > 0 && r.log[0] == Decode(|junk|, group, |payload|, |data|, d.message) && Sends(d.message) <= r.sent
            else r.hung
  {
    hide Known, PayloadSpec, Sends, FrameBytes, NextStringSpec, KnownHeader, LittleEndian;
    var data := junk + FrameBytes(group, payload) + tail;
    InitialInv();
    FrameHeader(junk, group, payload, tail);
    assert INITIAL.bytes + data == data;
    NextFrame(INITIAL, data, |junk|);
    assert forall ms: seq<Container> :: [] + ms == ms;
  }
}
