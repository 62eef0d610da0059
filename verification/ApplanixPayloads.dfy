/**
 * The payload decoders of ApplanixStringDecoder. Floating-point fields are kept as their raw little-endian bits.
 * A decoder whose uint8_t loop counter can never reach its bound does not return.
 */
module ApplanixPayloads {
  import opened Bytes
  import opened ByteReader

  const TIME_DISTANCE_FIELD_SIZE: nat := 26
  const GRP_FOOTER_SIZE: nat := 4
  const SIZE_OF_GNSS: nat := 20

  datatype TimeDistance = TimeDistance(time1: nat, time2: nat, distanceTag: nat, time1Type: nat, time2Type: nat, distanceType: nat)

  /** What m_conference.send receives. */
  datatype Container =
    | Fixed(group: nat, time: TimeDistance, fields: seq<nat>)                // GRP1, GRP2, GRP4, GRP10003
    | WGS84(lat: nat, lon: nat)                                              // sent after each GRP1
    | Grp3(time: TimeDistance, head: seq<nat>, channels: seq<seq<nat>>, tail: seq<nat>)
    | GnssRaw(group: nat, time: TimeDistance, receiverType: nat, raw: seq<byte>) // GRP10001, GRP10009
    | ImuRaw(time: TimeDistance, header: seq<byte>, raw: seq<byte>, checksum: nat) // GRP10002

  /** What a call of a decoder comes to. */
  datatype Decoded = Returned(reader: Reader, message: Container) | NeverReturns

  // Field widths, in reading order; the last field of each group but GRP3's head is padding and is not reported.
  const TIME_WIDTHS: seq<nat> := [8, 8, 8, 1, 1]
  const GRP1_WIDTHS: seq<nat> := [8, 8, 8, 4, 4, 4, 8, 8, 8, 8, 4, 4, 4, 4, 4, 4, 4, 4, 1, 1]
  const GRP2_WIDTHS: seq<nat> := [4, 4, 4, 4, 4, 4, 4, 4, 4, 4, 4, 4, 2]
  const GRP3_HEAD_WIDTHS: seq<nat> := [1, 1, 2]
  const CHANNEL_WIDTHS: seq<nat> := [2, 2, 4, 4, 4, 4]
  const GRP3_TAIL_WIDTHS: seq<nat> := [4, 4, 4, 2, 4, 8, 4, 4, 2, 4, 2]
  const GRP4_WIDTHS: seq<nat> := [24, 1, 1, 1, 2, 1]
  const GRP10001_HEAD_WIDTHS: seq<nat> := [2, 4, 2]
  const GRP10003_WIDTHS: seq<nat> := [4, 2]

  /** getTimeDistance; the two time types share one byte. */
  function TimeSpec(r: Reader): (Reader, TimeDistance) {
    var (r', v) := Fields(r, TIME_WIDTHS);
    (r', TimeDistance(v[0], v[1], v[2], v[3] % 16, v[3] - v[3] % 16, v[4]))
  }

  function FixedSpec(r: Reader, group: nat, widths: seq<nat>): Decoded
    requires widths != []
  {
    var (r1, time) := TimeSpec(r);
    var (r2, v) := Fields(r1, widths);
    Returned(r2, Fixed(group, time, v[..|v| - 1]))
  }

  // ---------------------------------------------------------------- loops with a uint8_t counter

  /** The value of a uint8_t counter that starts at 0 after t increments. */
  function Uint8(t: nat): nat {
    t % 256
  }

  /** `for (uint8_t i = 0; i < bound; i++)` ends exactly when the bound fits the counter. */
  lemma Uint8LoopEnds(bound: nat)
    ensures (exists t: nat :: Uint8(t) >= bound) <==> bound <= 255
  {
    assert bound <= 255 ==> Uint8(bound) >= bound;
  }

  // ---------------------------------------------------------------- GRP3

  function Channels(r: Reader, n: nat): (res: (Reader, seq<seq<nat>>))
    ensures |res.1| == n
    decreases n
  {
    if n == 0 then (r, [])
    else
      var (r1, all) := Channels(r, n - 1);
      var (r2, channel) := Fields(r1, CHANNEL_WIDTHS);
      (r2, all + [channel])
  }

  const ZERO_TIME := TimeDistance(0, 0, 0, 0, 0, 0)

  function Grp3Spec(r: Reader): Decoded {
    if !r.Good() then Returned(r, Grp3(ZERO_TIME, [0, 0, 0], [], [0, 0, 0, 0, 0, 0, 0, 0, 0, 0])) else
    var (r1, time) := TimeSpec(r);
    var (r2, head) := Fields(r1, GRP3_HEAD_WIDTHS);
    if head[2] / SIZE_OF_GNSS > 255 then NeverReturns
    else
      var (r3, channels) := Channels(r2, head[2] / SIZE_OF_GNSS);
      var (r4, tail) := Fields(r3, GRP3_TAIL_WIDTHS);
      Returned(r4, Grp3(time, head, channels, tail[..10]))
  }

  method GetGRP3(buffer: Reader) returns (d: Decoded)
    ensures d == Grp3Spec(buffer)
  {
    hide Fields;
    if !buffer.Good() { return Returned(buffer, Grp3(ZERO_TIME, [0, 0, 0], [], [0, 0, 0, 0, 0, 0, 0, 0, 0, 0])); }
    var (r1, time) := TimeSpec(buffer);
    var (r2, head) := Fields(r1, GRP3_HEAD_WIDTHS);
    var bound := head[2] / SIZE_OF_GNSS;
    // A bound above 255 is never reached by the uint8_t counter (Uint8LoopEnds).
    if bound > 255 { return NeverReturns; }
    var r3, channels := r2, [];
    for i := 0 to bound
      invariant (r3, channels) == Channels(r2, i)
    {
      var (r, channel) := Fields(r3, CHANNEL_WIDTHS);
      r3, channels := r, channels + [channel];
    }
    var (r4, tail) := Fields(r3, GRP3_TAIL_WIDTHS);
    d := Returned(r4, Grp3(time, head, channels, tail[..10]));
  }

  // ---------------------------------------------------------------- GRP10001, GRP10009, GRP10002

  /** The padding bound as C++ computes it: uint32_t until the first sizeof, size_t from there on. */
  function GnssPadding(payloadSize: nat, byteCount: nat): nat {
    ((payloadSize - TIME_DISTANCE_FIELD_SIZE) % U32 - 2 - 4 - 2 - byteCount - GRP_FOOTER_SIZE) % U64
  }

  function ImuPadding(payloadSize: nat, byteCount: nat): nat {
    ((payloadSize - TIME_DISTANCE_FIELD_SIZE - 6) % U32 - 2 - byteCount - 2 - GRP_FOOTER_SIZE) % U64
  }

  function GnssRawSpec(r: Reader, group: nat, payloadSize: nat): Decoded {
    if !r.Good() then Returned(r, GnssRaw(group, ZERO_TIME, 0, [])) else
    var (r1, time) := TimeSpec(r);
    var (r2, head) := Fields(r1, GRP10001_HEAD_WIDTHS);
    var (r3, raw) := Read(r2, head[2]);
    var padding := GnssPadding(payloadSize, head[2]);
    if padding > 255 then NeverReturns else Returned(Skip(r3, padding), GnssRaw(group, time, head[0], raw))
  }

  function ImuRawSpec(r: Reader, payloadSize: nat): Decoded {
    if !r.Good() then Returned(r, ImuRaw(ZERO_TIME, [], [], 0)) else
    var (r1, time) := TimeSpec(r);
    var (r2, header) := Read(r1, 6);
    var (r3, byteCount) := ReadField(r2, 2);
    var (r4, raw) := Read(r3, byteCount);
    var (r5, checksum) := ReadField(r4, 2);
    var padding := ImuPadding(payloadSize, byteCount);
    if padding > 255 then NeverReturns else Returned(Skip(r5, padding), ImuRaw(time, header, raw, checksum))
  }

  method ReadPadding(buffer: Reader, bound: nat) returns (r: Reader)
    ensures r == Skip(buffer, bound)
  {
    r := buffer;
    var paddingToRead := 0;
    while paddingToRead < bound
      invariant paddingToRead <= bound && Skip(r, bound - paddingToRead) == Skip(buffer, bound)
    {
      r := Read(r, 1).0;
      paddingToRead := paddingToRead + 1;
    }
  }

  method GetGRP10001(buffer: Reader, group: nat, payloadSize: nat) returns (d: Decoded)
    ensures d == GnssRawSpec(buffer, group, payloadSize)
  {
    hide Fields;
    if !buffer.Good() { return Returned(buffer, GnssRaw(group, ZERO_TIME, 0, [])); }
    var (r1, time) := TimeSpec(buffer);
    var (r2, head) := Fields(r1, GRP10001_HEAD_WIDTHS);
    var (r3, raw) := Read(r2, head[2]);
    var padding := GnssPadding(payloadSize, head[2]);
    if padding > 255 { return NeverReturns; }
    var r4 := ReadPadding(r3, padding);
    d := Returned(r4, GnssRaw(group, time, head[0], raw));
  }

  method GetGRP10002(buffer: Reader, payloadSize: nat) returns (d: Decoded)
    ensures d == ImuRawSpec(buffer, payloadSize)
  {
    hide Fields;
    if !buffer.Good() { return Returned(buffer, ImuRaw(ZERO_TIME, [], [], 0)); }
    var (r1, time) := TimeSpec(buffer);
    var (r2, header) := Read(r1, 6);
    var (r3, byteCount) := ReadField(r2, 2);
    var (r4, raw) := Read(r3, byteCount);
    var (r5, checksum) := ReadField(r4, 2);
    var padding := ImuPadding(payloadSize, byteCount);
    if padding > 255 { return NeverReturns; }
    var r6 := ReadPadding(r5, padding);
    d := Returned(r6, ImuRaw(time, header, raw, checksum));
  }

  // ---------------------------------------------------------------- all groups

  predicate Known(group: nat) {
    group in {1, 2, 3, 4, 10001, 10002, 10003, 10009}
  }

  /** The decoder the framer calls for a group; on a stream that is not good it returns a message of zeros. */
  function PayloadSpec(r: Reader, group: nat, payloadSize: nat): Decoded
    requires Known(group)
  {
    if group == 1 then FixedSpec(r, 1, GRP1_WIDTHS)
    else if group == 2 then FixedSpec(r, 2, GRP2_WIDTHS)
    else if group == 3 then Grp3Spec(r)
    else if group == 4 then FixedSpec(r, 4, GRP4_WIDTHS)
    else if group == 10001 then GnssRawSpec(r, 10001, payloadSize)
    else if group == 10002 then ImuRawSpec(r, payloadSize)
    else if group == 10003 then FixedSpec(r, 10003, GRP10003_WIDTHS)
    else GnssRawSpec(r, 10009, payloadSize)
  }

  /** The containers sent for one decoded message: a GRP1 is followed by its position. */
  function Sends(m: Container): seq<Container> {
    if m.Fixed? && m.group == 1 && |m.fields| >= 2 then [m, WGS84(m.fields[0], m.fields[1])] else [m]
  }

  method DecodePayload(buffer: Reader, group: nat, payloadSize: nat) returns (d: Decoded)
    requires Known(group)
    ensures d == PayloadSpec(buffer, group, payloadSize)
  {
    if group == 3 {
      d := GetGRP3(buffer);
    } else if group == 10001 || group == 10009 {
      d := GetGRP10001(buffer, group, payloadSize);
    } else if group == 10002 {
      d := GetGRP10002(buffer, payloadSize);
    } else {
      d := PayloadSpec(buffer, group, payloadSize);
    }
  }

  lemma {:induction false} AfterChannels(r: Reader, n: nat)
    ensures After(r, Channels(r, n).0)
    decreases n
  {
    if n > 0 {
      AfterChannels(r, n - 1);
      AfterFields(Channels(r, n - 1).0, CHANNEL_WIDTHS);
      AfterTrans(r, Channels(r, n - 1).0, Channels(r, n).0);
    }
  }

  /** Decoders only move forward in the stream. */
  lemma AfterPayload(r: Reader, group: nat, payloadSize: nat)
    requires Known(group)
    ensures var d := PayloadSpec(r, group, payloadSize); d.Returned? ==> After(r, d.reader)
  {
    hide Fields, Skip, Read, Known;
    AfterFields(r, TIME_WIDTHS);
    var r1 := TimeSpec(r).0;
    AfterChain(r, r1, GRP1_WIDTHS);
    AfterChain(r, r1, GRP2_WIDTHS);
    AfterChain(r, r1, GRP4_WIDTHS);
    AfterChain(r, r1, GRP10003_WIDTHS);
    AfterGrp3(r);
    AfterRaw(r, r1, group, payloadSize);
  }

  lemma AfterChain(r: Reader, r1: Reader, widths: seq<nat>)
    requires After(r, r1)
    ensures After(r, Fields(r1, widths).0)
  {
    AfterFields(r1, widths);
    AfterTrans(r, r1, Fields(r1, widths).0);
  }

  lemma AfterGrp3(r: Reader)
    ensures Grp3Spec(r).Returned? ==> After(r, Grp3Spec(r).reader)
  {
    hide Fields;
    AfterFields(r, TIME_WIDTHS);
    var r1 := TimeSpec(r).0;
    AfterChain(r, r1, GRP3_HEAD_WIDTHS);
    var (r2, head) := Fields(r1, GRP3_HEAD_WIDTHS);
    var n := head[2] / SIZE_OF_GNSS;
    AfterChannels(r2, n);
    AfterTrans(r, r2, Channels(r2, n).0);
    AfterChain(r, Channels(r2, n).0, GRP3_TAIL_WIDTHS);
  }

  lemma AfterRaw(r: Reader, r1: Reader, group: nat, payloadSize: nat)
    requires r1 == TimeSpec(r).0 && After(r, r1)
    ensures var d := GnssRawSpec(r, group, payloadSize); d.Returned? ==> After(r, d.reader)
    ensures var d := ImuRawSpec(r, payloadSize); d.Returned? ==> After(r, d.reader)
  {
    hide Fields, Skip;
    AfterChain(r, r1, GRP10001_HEAD_WIDTHS);
    var (r2, head) := Fields(r1, GRP10001_HEAD_WIDTHS);
    AfterReads(r, r2, head[2], GnssPadding(payloadSize, head[2]));
    AfterReads(r, r1, 6, 0);
    var s2 := Read(r1, 6).0;
    AfterReads(r, s2, 2, 0);
    var (s3, byteCount) := ReadField(s2, 2);
    AfterReads(r, s3, byteCount, 0);
    AfterReads(r, Read(s3, byteCount).0, 2, ImuPadding(payloadSize, byteCount));
  }

  lemma AfterReads(r: Reader, r1: Reader, n: nat, padding: nat)
    requires After(r, r1)
    ensures After(r, Read(r1, n).0) && After(r, Skip(Read(r1, n).0, padding))
  {
    AfterRead(r1, n);
    AfterTrans(r, r1, Read(r1, n).0);
    AfterSkip(Read(r1, n).0, padding);
    AfterTrans(r, Read(r1, n).0, Skip(Read(r1, n).0, padding));
  }

  // ---------------------------------------------------------------- how much a decoder consumes

  lemma {:induction false} ChannelsExact(r: Reader, n: nat)
    ensures Used(r, Channels(r, n).0, 20 * n)
    decreases n
  {
    if n > 0 {
      ChannelsExact(r, n - 1);
      FieldsUse(Channels(r, n - 1).0, CHANNEL_WIDTHS);
      TotalChannel();
    }
  }

  lemma TotalsOfGroups()
    ensures Total(TIME_WIDTHS) == TIME_DISTANCE_FIELD_SIZE && Total(GRP10001_HEAD_WIDTHS) == 8
  {
  }

  lemma TwoBytes(r: Reader)
    ensures ReadField(r, 2).1 < 0x1_0000
  {
    LittleEndianBound(Read(r, 2).1);
  }

  lemma Grp3Uses(r: Reader)
    ensures var d := Grp3Spec(r); d.Returned? && !d.reader.failed ==> 72 <= |r.rest| - |d.reader.rest| <= 72 + 20 * 255
  {
    hide Fields, Total;
    TotalsOfGroups();
    Grp3Length();
    FieldsUse(r, TIME_WIDTHS);
    var r1 := TimeSpec(r).0;
    FieldsUse(r1, GRP3_HEAD_WIDTHS);
    var (r2, head) := Fields(r1, GRP3_HEAD_WIDTHS);
    var n := head[2] / SIZE_OF_GNSS;
    ChannelsExact(r2, n);
    FieldsUse(Channels(r2, n).0, GRP3_TAIL_WIDTHS);
  }

  lemma GnssUses(r: Reader, group: nat, payloadSize: nat)
    requires payloadSize < 0x1_0000
    ensures var d := GnssRawSpec(r, group, payloadSize); d.Returned? && !d.reader.failed ==> |r.rest| - |d.reader.rest| == payloadSize - 4
    ensures var d := GnssRawSpec(r, group, payloadSize); d.Returned? && !d.reader.failed ==> payloadSize >= 38
  {
    hide Total, Skip, GnssPadding;
    TotalsOfGroups();
    FieldsUse(r, TIME_WIDTHS);
    var r1 := TimeSpec(r).0;
    FieldsUse(r1, GRP10001_HEAD_WIDTHS);
    var (r2, head) := Fields(r1, GRP10001_HEAD_WIDTHS);
    HeadCount(r1);
    var r3 := Read(r2, head[2]).0;
    PaddingBounds(payloadSize, head[2]);
    SkipUses(r3, GnssPadding(payloadSize, head[2]));
  }

  lemma HeadCount(r: Reader)
    ensures Fields(r, GRP10001_HEAD_WIDTHS).1[2] < 0x1_0000
  {
    var r2 := ReadField(ReadField(r, 2).0, 4).0;
    TwoBytes(r2);
    assert Fields(r, GRP10001_HEAD_WIDTHS).1[2] == ReadField(r2, 2).1;
  }

  lemma ImuUses(r: Reader, payloadSize: nat)
    requires payloadSize < 0x1_0000
    ensures var d := ImuRawSpec(r, payloadSize); d.Returned? && !d.reader.failed ==> |r.rest| - |d.reader.rest| == payloadSize - 4
    ensures var d := ImuRawSpec(r, payloadSize); d.Returned? && !d.reader.failed ==> payloadSize >= 40
  {
    hide Total, Skip, ImuPadding, Fields;
    TotalsOfGroups();
    FieldsUse(r, TIME_WIDTHS);
    var r1 := TimeSpec(r).0;
    var r2 := Read(r1, 6).0;
    TwoBytes(r2);
    var (r3, byteCount) := ReadField(r2, 2);
    PaddingBounds(payloadSize, byteCount);
    var r5 := ReadField(Read(r3, byteCount).0, 2).0;
    SkipUses(r5, ImuPadding(payloadSize, byteCount));
  }

  lemma FixedUses(r: Reader, r1: Reader, widths: seq<nat>)
    requires Used(r, r1, TIME_DISTANCE_FIELD_SIZE) && |widths| <= 20 && forall i :: 0 <= i < |widths| ==> widths[i] <= 24
    ensures var r2 := Fields(r1, widths).0; !r2.failed ==> 0 < |r.rest| - |r2.rest| < 0x1_0000
  {
    FieldsUse(r1, widths);
    TotalBound(widths);
  }

  lemma {:induction false} TotalBound(widths: seq<nat>)
    requires forall i :: 0 <= i < |widths| ==> widths[i] <= 24
    ensures Total(widths) <= 24 * |widths|
    decreases |widths|
  {
    if widths != [] {
      TotalBound(widths[1..]);
    }
  }

  /** A decoder that returns on a stream it did not fail has consumed at least one byte and less than 2^16. */
  lemma PayloadUses(r: Reader, group: nat, payloadSize: nat)
    requires Known(group) && payloadSize < 0x1_0000
    ensures var d := PayloadSpec(r, group, payloadSize);
            d.Returned? && !d.reader.failed ==> 0 < |r.rest| - |d.reader.rest| < 0x1_0000
  {
    hide Fields, Skip, Total, Grp3Spec, GnssRawSpec, ImuRawSpec;
    TotalsOfGroups();
    FieldsUse(r, TIME_WIDTHS);
    var r1 := TimeSpec(r).0;
    FixedUses(r, r1, GRP1_WIDTHS);
    FixedUses(r, r1, GRP2_WIDTHS);
    FixedUses(r, r1, GRP4_WIDTHS);
    FixedUses(r, r1, GRP10003_WIDTHS);
    Grp3Uses(r);
    GnssUses(r, group, payloadSize);
    ImuUses(r, payloadSize);
  }

  // ---------------------------------------------------------------- decoding inverts the field layout

  // What a sender lays out, with the width of each field.

  function TimeFields(t: TimeDistance): seq<Field> {
    [(t.time1, 8), (t.time2, 8), (t.distanceTag, 8), (t.time1Type + t.time2Type, 1), (t.distanceType, 1)]
  }

  ghost predicate TimeFits(t: TimeDistance) {
    Fit(TimeFields(t)) && t.time1Type < 16 && t.time2Type % 16 == 0
  }

  function EncodeTime(t: TimeDistance): seq<byte> {
    Pack(TimeFields(t))
  }

  lemma TimeRoundTrip(t: TimeDistance, tail: seq<byte>)
    requires TimeFits(t)
    ensures TimeSpec(Reader(EncodeTime(t) + tail, false)) == (Reader(tail, false), t)
  {
    hide Fields, Pack;
    FieldsRoundTrip(TimeFields(t), TIME_WIDTHS, tail);
  }

  /** SV_PRN, tracking status, azimuth, elevation, and the two signal-to-noise ratios. */
  function ChannelFields(channel: seq<nat>): seq<Field>
    requires |channel| == 6
  {
    [(channel[0], 2), (channel[1], 2), (channel[2], 4), (channel[3], 4), (channel[4], 4), (channel[5], 4)]
  }

  ghost predicate ChannelsFit(channels: seq<seq<nat>>) {
    forall i :: 0 <= i < |channels| ==> |channels[i]| == 6 && Fit(ChannelFields(channels[i]))
  }

  ghost function EncodeChannels(channels: seq<seq<nat>>): seq<byte>
    requires ChannelsFit(channels)
  {
    if channels == [] then []
    else EncodeChannels(channels[..|channels| - 1]) + Pack(ChannelFields(channels[|channels| - 1]))
  }

  lemma {:induction false} ChannelsRoundTrip(channels: seq<seq<nat>>, tail: seq<byte>)
    requires ChannelsFit(channels)
    ensures Channels(Reader(EncodeChannels(channels) + tail, false), |channels|) == (Reader(tail, false), channels)
    ensures |EncodeChannels(channels)| == 20 * |channels|
    decreases |channels|
  {
    hide Fields, Pack;
    if channels == [] {
      assert EncodeChannels(channels) + tail == tail;
    } else {
      var init, last := channels[..|channels| - 1], channels[|channels| - 1];
      var bytes := Pack(ChannelFields(last));
      assert EncodeChannels(channels) + tail == EncodeChannels(init) + (bytes + tail);
      ChannelsRoundTrip(init, bytes + tail);
      assert Widths(ChannelFields(last)) == CHANNEL_WIDTHS;
      FieldsRoundTrip(ChannelFields(last), CHANNEL_WIDTHS, tail);
      assert Values(ChannelFields(last)) == last;
      assert init + [last] == channels;
      assert Total(CHANNEL_WIDTHS) == 20 by { TotalChannel(); }
    }
  }

  lemma TotalChannel()
    ensures Total(CHANNEL_WIDTHS) == 20
  {
    assert CHANNEL_WIDTHS[1..][1..] == [4, 4, 4, 4];
    assert Total([4, 4, 4, 4]) == 16;
  }

  /** Navigation status, tracked satellites, and the byte count of the channels. */
  function Grp3Head(m: Container): seq<Field>
    requires m.Grp3? && |m.head| == 3
  {
    [(m.head[0], 1), (m.head[1], 1), (m.head[2], 2)]
  }

  /** HDOP, VDOP, DGPS latency and reference, UTC week and offset, latency, separation, receiver type, status. */
  function Grp3Tail(m: Container, pad: nat): seq<Field>
    requires m.Grp3? && |m.tail| == 10
  {
    [(m.tail[0], 4), (m.tail[1], 4), (m.tail[2], 4), (m.tail[3], 2), (m.tail[4], 4), (m.tail[5], 8), (m.tail[6], 4),
     (m.tail[7], 4), (m.tail[8], 2), (m.tail[9], 4), (pad, 2)]
  }

  /** A GRP3 message as the unit lays it out: as many channels as the byte count announces. */
  ghost predicate Grp3Fits(m: Container, pad: nat) {
    && m.Grp3? && TimeFits(m.time) && |m.head| == 3 && Fit(Grp3Head(m))
    && |m.channels| == m.head[2] / 20 && ChannelsFit(m.channels)
    && |m.tail| == 10 && Fit(Grp3Tail(m, pad))
  }

  ghost function EncodeGrp3(m: Container, pad: nat): seq<byte>
    requires Grp3Fits(m, pad)
  {
    EncodeTime(m.time) + (Pack(Grp3Head(m)) + (EncodeChannels(m.channels) + Pack(Grp3Tail(m, pad))))
  }

  /** GRP3 decodes to what was encoded, consuming 72 + 20n bytes, exactly when n fits the loop counter. */
  lemma Grp3RoundTrip(m: Container, pad: nat, tail: seq<byte>)
    requires Grp3Fits(m, pad)
    ensures Grp3Spec(Reader(EncodeGrp3(m, pad) + tail, false))
            == if |m.channels| <= 255 then Returned(Reader(tail, false), m) else NeverReturns
    ensures |EncodeGrp3(m, pad)| == 72 + 20 * |m.channels|
  {
    hide Fields, Pack, Channels, EncodeTime, EncodeChannels, Fit;
    var head, body, last := Pack(Grp3Head(m)), EncodeChannels(m.channels), Pack(Grp3Tail(m, pad));
    Append4(EncodeTime(m.time), head, body, last, tail);
    Grp3Fields(m, pad);
    TimeRoundTrip(m.time, head + (body + (last + tail)));
    FieldsRoundTrip(Grp3Head(m), GRP3_HEAD_WIDTHS, body + (last + tail));
    ChannelsRoundTrip(m.channels, last + tail);
    FieldsRoundTrip(Grp3Tail(m, pad), GRP3_TAIL_WIDTHS, tail);
    Grp3Length();
    TimeLength(m.time);
  }

  lemma Grp3Fields(m: Container, pad: nat)
    requires m.Grp3? && |m.head| == 3 && |m.tail| == 10
    ensures Widths(Grp3Head(m)) == GRP3_HEAD_WIDTHS && Values(Grp3Head(m)) == m.head
    ensures Widths(Grp3Tail(m, pad)) == GRP3_TAIL_WIDTHS && Values(Grp3Tail(m, pad))[..10] == m.tail
  {
  }

  lemma Append4(a: seq<byte>, b: seq<byte>, c: seq<byte>, d: seq<byte>, tail: seq<byte>)
    ensures a + (b + (c + d)) + tail == a + (b + (c + (d + tail)))
  {
    assert a + (b + (c + d)) + tail == a + (b + (c + (d + tail)));
  }

  lemma TimeLength(t: TimeDistance)
    ensures |EncodeTime(t)| == TIME_DISTANCE_FIELD_SIZE
  {
    assert Widths(TimeFields(t)) == TIME_WIDTHS;
    assert TIME_WIDTHS[1..][1..] == [8, 1, 1];
    assert Total([8, 1, 1]) == 10;
  }

  lemma Grp3Length()
    ensures Total(GRP3_HEAD_WIDTHS) == 4 && Total(GRP3_TAIL_WIDTHS) == 42
  {
    assert Total([4, 2]) == 6;
    assert [4, 4, 2, 4, 2][1..][1..] == [2, 4, 2];
    assert Total([2, 4, 2]) == 8;
    assert Total([4, 4, 2, 4, 2]) == 16;
    assert GRP3_TAIL_WIDTHS[1..] == [4, 4, 2, 4, 8, 4, 4, 2, 4, 2];
    assert GRP3_TAIL_WIDTHS[1..][1..] == [4, 2, 4, 8, 4, 4, 2, 4, 2];
    assert GRP3_TAIL_WIDTHS[1..][1..][1..] == [2, 4, 8, 4, 4, 2, 4, 2];
    assert [2, 4, 8, 4, 4, 2, 4, 2][1..][1..] == [8, 4, 4, 2, 4, 2];
    assert [8, 4, 4, 2, 4, 2][1..] == [4, 4, 2, 4, 2];
  }

  /** The padding bound fits the loop counter exactly when the payload has 0 to 255 bytes left over. */
  lemma PaddingBounds(payloadSize: nat, byteCount: nat)
    requires payloadSize < 0x1_0000 && byteCount < 0x1_0000
    ensures GnssPadding(payloadSize, byteCount) <= 255 <==> 0 <= payloadSize - 38 - byteCount <= 255
    ensures GnssPadding(payloadSize, byteCount) <= 255 ==> GnssPadding(payloadSize, byteCount) == payloadSize - 38 - byteCount
    ensures ImuPadding(payloadSize, byteCount) <= 255 <==> 0 <= payloadSize - 40 - byteCount <= 255
    ensures ImuPadding(payloadSize, byteCount) <= 255 ==> ImuPadding(payloadSize, byteCount) == payloadSize - 40 - byteCount
  {
    Wraps(payloadSize - 26, 12 + byteCount);
    Wraps(payloadSize - 32, 8 + byteCount);
  }

  lemma Wraps(a: int, b: nat)
    requires -40 <= a < 0x1_0000 && b < 0x1_1000
    ensures (a % U32 - b) % U64 == if a < 0 then a + U32 - b else if a - b < 0 then a - b + U64 else a - b
  {
    assert a % U32 == if a < 0 then a + U32 else a;
  }

  ghost predicate GnssFits(m: Container, reserved: nat) {
    && m.GnssRaw? && TimeFits(m.time) && |m.raw| < 0x1_0000
    && Fit(GnssHead(m, reserved))
  }

  function GnssHead(m: Container, reserved: nat): seq<Field>
    requires m.GnssRaw?
  {
    [(m.receiverType, 2), (reserved, 4), (|m.raw|, 2)]
  }

  function EncodeGnss(m: Container, reserved: nat, padding: seq<byte>): seq<byte>
    requires m.GnssRaw?
  {
    EncodeTime(m.time) + (Pack(GnssHead(m, reserved)) + (m.raw + padding))
  }

  /**
   * GRP10001 and GRP10009 with the payload size that counts the footer: decoding gives the message back and
   * consumes payloadSize - 4 bytes, for raw data of any length, exactly when the padding fits the loop counter.
   */
  lemma GnssRoundTrip(m: Container, reserved: nat, padding: seq<byte>, tail: seq<byte>, payloadSize: nat)
    requires GnssFits(m, reserved) && payloadSize == 38 + |m.raw| + |padding| && payloadSize < 0x1_0000
    ensures |EncodeGnss(m, reserved, padding)| == payloadSize - 4
    ensures GnssRawSpec(Reader(EncodeGnss(m, reserved, padding) + tail, false), m.group, payloadSize)
            == if |padding| <= 255 then Returned(Reader(tail, false), m) else NeverReturns
  {
    hide Fields, Pack, EncodeTime, Skip, Read;
    var head := Pack(GnssHead(m, reserved));
    assert Widths(GnssHead(m, reserved)) == GRP10001_HEAD_WIDTHS;
    assert Values(GnssHead(m, reserved)) == [m.receiverType, reserved, |m.raw|];
    Append4(EncodeTime(m.time), head, m.raw, padding, tail);
    TimeRoundTrip(m.time, head + (m.raw + (padding + tail)));
    FieldsRoundTrip(GnssHead(m, reserved), GRP10001_HEAD_WIDTHS, m.raw + (padding + tail));
    ReadExact(m.raw, padding + tail);
    SkipExact(padding, tail);
    PaddingBounds(payloadSize, |m.raw|);
    TimeLength(m.time);
    assert Total(GRP10001_HEAD_WIDTHS) == 8 by { assert GRP10001_HEAD_WIDTHS[1..] == [4, 2]; }
  }

  ghost predicate ImuFits(m: Container) {
    && m.ImuRaw? && TimeFits(m.time) && |m.header| == 6 && |m.raw| < 0x1_0000 && m.checksum < 0x1_0000
  }

  function EncodeImu(m: Container, padding: seq<byte>): seq<byte>
    requires m.ImuRaw?
  {
    EncodeTime(m.time) + (m.header + (ToLittleEndian(|m.raw|, 2) + (m.raw + (ToLittleEndian(m.checksum, 2) + padding))))
  }

  /** The same for GRP10002. */
  lemma ImuRoundTrip(m: Container, padding: seq<byte>, tail: seq<byte>, payloadSize: nat)
    requires ImuFits(m) && payloadSize == 40 + |m.raw| + |padding| && payloadSize < 0x1_0000
    ensures |EncodeImu(m, padding)| == payloadSize - 4
    ensures ImuRawSpec(Reader(EncodeImu(m, padding) + tail, false), payloadSize)
            == if |padding| <= 255 then Returned(Reader(tail, false), m) else NeverReturns
  {
    hide Fields, Pack, EncodeTime, Skip, Read, ToLittleEndian, LittleEndian;
    var count, sum := ToLittleEndian(|m.raw|, 2), ToLittleEndian(m.checksum, 2);
    assert EncodeImu(m, padding) + tail
        == EncodeTime(m.time) + (m.header + (count + (m.raw + (sum + (padding + tail)))));
    TimeRoundTrip(m.time, m.header + (count + (m.raw + (sum + (padding + tail)))));
    ReadExact(m.header, count + (m.raw + (sum + (padding + tail))));
    ReadExact(count, m.raw + (sum + (padding + tail)));
    ReadExact(m.raw, sum + (padding + tail));
    ReadExact(sum, padding + tail);
    assert Pow256(2) == 0x1_0000;
    LittleEndianRoundTrip(|m.raw|, 2);
    LittleEndianRoundTrip(m.checksum, 2);
    SkipExact(padding, tail);
    PaddingBounds(payloadSize, |m.raw|);
    TimeLength(m.time);
  }
}
