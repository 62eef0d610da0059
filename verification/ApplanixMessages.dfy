/**
 * The eight groups as the unit sends them, field by field, and the proof that the decoders give exactly these fields
 * back and that nextString sends them on.
 */
module ApplanixMessages {
  import opened Bytes
  import opened ByteReader
  import opened ApplanixPayloads
  import opened ApplanixDecoder
  import opened ApplanixRuns

  /** What a frame carries. Floating-point numbers are their bits; IMU data are 24 bytes. */
  datatype Payload =
    | Position(time: TimeDistance, lat: nat, lon: nat, alt: nat, velNorth: nat, velEast: nat, velDown: nat, roll: nat, pitch: nat,
               heading: nat, wander: nat, track: nat, speed: nat, arateLon: nat, arateTrans: nat, arateDown: nat,
               accelLon: nat, accelTrans: nat, accelDown: nat, alignment: nat, pad: nat)                               // GRP1
    | Accuracy(time: TimeDistance, northPos: nat, eastPos: nat, downPos: nat, northVel: nat, eastVel: nat, downVel: nat,
               rollRms: nat, pitchRms: nat, headingRms: nat, major: nat, minor: nat, orientation: nat, pad: nat)       // GRP2
    | Receiver(message: Container, pad: nat)                                                                           // GRP3
    | Inertial(time: TimeDistance, imuData: nat, dataStatus: nat, imuType: nat, imuRate: nat, imuStatus: nat, pad: nat) // GRP4
    | RawGnss(message: Container, reserved: nat, padding: seq<byte>)                                       // GRP10001, GRP10009
    | RawImu(message: Container, padding: seq<byte>)                                                                   // GRP10002
    | Pulse(time: TimeDistance, count: nat, pad: nat)                                                                  // GRP10003

  function GroupOf(p: Payload): nat {
    match p
    case Position(_, _, _, _, _, _, _, _, _, _, _, _, _, _, _, _, _, _, _, _, _) => 1
    case Accuracy(_, _, _, _, _, _, _, _, _, _, _, _, _, _) => 2
    case Receiver(_, _) => 3
    case Inertial(_, _, _, _, _, _, _) => 4
    case RawGnss(message, _, _) => if message.GnssRaw? then message.group else UNKNOWN
    case RawImu(_, _) => 10002
    case Pulse(_, _, _) => 10003
  }

  // ---------------------------------------------------------------- the groups of fixed length

  function PositionFields(p: Payload): seq<Field>
    requires p.Position?
  {
    [(p.lat, 8), (p.lon, 8), (p.alt, 8), (p.velNorth, 4), (p.velEast, 4), (p.velDown, 4), (p.roll, 8), (p.pitch, 8), (p.heading, 8),
     (p.wander, 8), (p.track, 4), (p.speed, 4), (p.arateLon, 4), (p.arateTrans, 4), (p.arateDown, 4), (p.accelLon, 4),
     (p.accelTrans, 4), (p.accelDown, 4), (p.alignment, 1), (p.pad, 1)]
  }

  function AccuracyFields(p: Payload): seq<Field>
    requires p.Accuracy?
  {
    [(p.northPos, 4), (p.eastPos, 4), (p.downPos, 4), (p.northVel, 4), (p.eastVel, 4), (p.downVel, 4), (p.rollRms, 4),
     (p.pitchRms, 4), (p.headingRms, 4), (p.major, 4), (p.minor, 4), (p.orientation, 4), (p.pad, 2)]
  }

  function InertialFields(p: Payload): seq<Field>
    requires p.Inertial?
  {
    [(p.imuData, 24), (p.dataStatus, 1), (p.imuType, 1), (p.imuRate, 1), (p.imuStatus, 2), (p.pad, 1)]
  }

  function PulseFields(p: Payload): seq<Field>
    requires p.Pulse?
  {
    [(p.count, 4), (p.pad, 2)]
  }

  ghost predicate Sendable(p: Payload) {
    match p
    case Position(time, _, _, _, _, _, _, _, _, _, _, _, _, _, _, _, _, _, _, _, _) => TimeFits(time) && Fit(PositionFields(p))
    case Accuracy(time, _, _, _, _, _, _, _, _, _, _, _, _, _) => TimeFits(time) && Fit(AccuracyFields(p))
    case Receiver(m, pad) => Grp3Fits(m, pad) && |m.channels| <= 255
    case Inertial(time, _, _, _, _, _, _) => TimeFits(time) && Fit(InertialFields(p))
    case RawGnss(m, reserved, padding) => GnssFits(m, reserved) && (m.group == 10001 || m.group == 10009) && |padding| <= 255
    case RawImu(m, padding) => ImuFits(m) && |padding| <= 255
    case Pulse(time, _, _) => TimeFits(time) && Fit(PulseFields(p))
  }

  ghost function PayloadBytes(p: Payload): seq<byte>
    requires Sendable(p)
  {
    match p
    case Position(time, _, _, _, _, _, _, _, _, _, _, _, _, _, _, _, _, _, _, _, _) => EncodeTime(time) + Pack(PositionFields(p))
    case Accuracy(time, _, _, _, _, _, _, _, _, _, _, _, _, _) => EncodeTime(time) + Pack(AccuracyFields(p))
    case Receiver(m, pad) => EncodeGrp3(m, pad)
    case Inertial(time, _, _, _, _, _, _) => EncodeTime(time) + Pack(InertialFields(p))
    case RawGnss(m, reserved, padding) => EncodeGnss(m, reserved, padding)
    case RawImu(m, padding) => EncodeImu(m, padding)
    case Pulse(time, _, _) => EncodeTime(time) + Pack(PulseFields(p))
  }

  /** The message it becomes: every field but the padding. */
  function MessageOf(p: Payload): Container {
    match p
    case Position(time, _, _, _, _, _, _, _, _, _, _, _, _, _, _, _, _, _, _, _, _) =>
      Fixed(1, time, [p.lat, p.lon, p.alt, p.velNorth, p.velEast, p.velDown, p.roll, p.pitch, p.heading, p.wander, p.track, p.speed,
                      p.arateLon, p.arateTrans, p.arateDown, p.accelLon, p.accelTrans, p.accelDown, p.alignment])
    case Accuracy(time, _, _, _, _, _, _, _, _, _, _, _, _, _) =>
      Fixed(2, time, [p.northPos, p.eastPos, p.downPos, p.northVel, p.eastVel, p.downVel, p.rollRms, p.pitchRms, p.headingRms,
                      p.major, p.minor, p.orientation])
    case Receiver(m, _) => m
    case Inertial(time, _, _, _, _, _, _) => Fixed(4, time, [p.imuData, p.dataStatus, p.imuType, p.imuRate, p.imuStatus])
    case RawGnss(m, _, _) => m
    case RawImu(m, _) => m
    case Pulse(time, _, _) => Fixed(10003, time, [p.count])
  }

  lemma FixedReads(group: nat, time: TimeDistance, fs: seq<Field>, widths: seq<nat>, vs: seq<nat>, tail: seq<byte>)
    requires TimeFits(time) && Fit(fs) && widths != [] && Widths(fs) == widths && |vs| == |fs| - 1
    requires forall i :: 0 <= i < |vs| ==> vs[i] == fs[i].0
    ensures FixedSpec(Reader(EncodeTime(time) + Pack(fs) + tail, false), group, widths)
            == Returned(Reader(tail, false), Fixed(group, time, vs))
  {
    hide Fields, Pack, EncodeTime, TimeSpec, TimeFits, Fit, Widths, Values;
    AllButLast(fs, vs);
    assert EncodeTime(time) + Pack(fs) + tail == EncodeTime(time) + (Pack(fs) + tail);
    TimeRoundTrip(time, Pack(fs) + tail);
    FieldsRoundTrip(fs, widths, tail);
  }

  lemma AllButLast(fs: seq<Field>, vs: seq<nat>)
    requires |vs| == |fs| - 1 && forall i :: 0 <= i < |vs| ==> vs[i] == fs[i].0
    ensures Values(fs)[..|fs| - 1] == vs
  {
  }

  lemma PositionReads(p: Payload, tail: seq<byte>)
    requires p.Position? && TimeFits(p.time) && Fit(PositionFields(p))
    ensures FixedSpec(Reader(EncodeTime(p.time) + Pack(PositionFields(p)) + tail, false), 1, GRP1_WIDTHS)
            == Returned(Reader(tail, false), MessageOf(p))
  {
    hide FixedSpec, Pack, Fit, TimeFits, EncodeTime;
    assert Widths(PositionFields(p)) == GRP1_WIDTHS;
    FixedReads(1, p.time, PositionFields(p), GRP1_WIDTHS, MessageOf(p).fields, tail);
  }

  lemma AccuracyReads(p: Payload, tail: seq<byte>)
    requires p.Accuracy? && TimeFits(p.time) && Fit(AccuracyFields(p))
    ensures FixedSpec(Reader(EncodeTime(p.time) + Pack(AccuracyFields(p)) + tail, false), 2, GRP2_WIDTHS)
            == Returned(Reader(tail, false), MessageOf(p))
  {
    hide FixedSpec, Pack, Fit, TimeFits, EncodeTime;
    assert Widths(AccuracyFields(p)) == GRP2_WIDTHS;
    FixedReads(2, p.time, AccuracyFields(p), GRP2_WIDTHS, MessageOf(p).fields, tail);
  }

  lemma InertialReads(p: Payload, tail: seq<byte>)
    requires p.Inertial? && TimeFits(p.time) && Fit(InertialFields(p))
    ensures FixedSpec(Reader(EncodeTime(p.time) + Pack(InertialFields(p)) + tail, false), 4, GRP4_WIDTHS)
            == Returned(Reader(tail, false), MessageOf(p))
  {
    hide FixedSpec, Pack, Fit, TimeFits, EncodeTime;
    assert Widths(InertialFields(p)) == GRP4_WIDTHS;
    FixedReads(4, p.time, InertialFields(p), GRP4_WIDTHS, MessageOf(p).fields, tail);
  }

  lemma PulseReads(p: Payload, tail: seq<byte>)
    requires p.Pulse? && TimeFits(p.time) && Fit(PulseFields(p))
    ensures FixedSpec(Reader(EncodeTime(p.time) + Pack(PulseFields(p)) + tail, false), 10003, GRP10003_WIDTHS)
            == Returned(Reader(tail, false), MessageOf(p))
  {
    hide FixedSpec, Pack, Fit, TimeFits, EncodeTime;
    assert Widths(PulseFields(p)) == GRP10003_WIDTHS;
    FixedReads(10003, p.time, PulseFields(p), GRP10003_WIDTHS, MessageOf(p).fields, tail);
  }

  /** Decoding a payload of any group gives its message and consumes exactly its bytes. */
  lemma PayloadReads(p: Payload, size: nat, tail: seq<byte>)
    requires Sendable(p) && size < 0x1_0000 && (p.RawGnss? || p.RawImu? ==> size == |PayloadBytes(p)| + 4)
    ensures Known(GroupOf(p))
    ensures PayloadSpec(Reader(PayloadBytes(p) + tail, false), GroupOf(p), size) == Returned(Reader(tail, false), MessageOf(p))
  {
    hide FixedSpec, Grp3Spec, GnssRawSpec, ImuRawSpec, EncodeTime, Pack, EncodeGrp3, EncodeGnss, EncodeImu, Fit, TimeFits,
      PositionFields, AccuracyFields, InertialFields, PulseFields, GnssFits, ImuFits, Grp3Fits;
    match p {
      case Position(_, _, _, _, _, _, _, _, _, _, _, _, _, _, _, _, _, _, _, _, _) => PositionReads(p, tail);
      case Accuracy(_, _, _, _, _, _, _, _, _, _, _, _, _, _) => AccuracyReads(p, tail);
      case Receiver(m, pad) => Grp3RoundTrip(m, pad, tail);
      case Inertial(_, _, _, _, _, _, _) => InertialReads(p, tail);
      case RawGnss(m, reserved, padding) =>
        GnssSize(m, reserved, padding);
        GnssRoundTrip(m, reserved, padding, tail, size);
      case RawImu(m, padding) =>
        ImuSize(m, padding);
        ImuRoundTrip(m, padding, tail, size);
      case Pulse(_, _, _) => PulseReads(p, tail);
    }
  }

  lemma GnssSize(m: Container, reserved: nat, padding: seq<byte>)
    requires GnssFits(m, reserved)
    ensures m.GnssRaw? && |EncodeGnss(m, reserved, padding)| == 34 + |m.raw| + |padding|
  {
    TimeLength(m.time);
    assert Widths(GnssHead(m, reserved)) == GRP10001_HEAD_WIDTHS;
    TotalsOfGroups();
  }

  lemma ImuSize(m: Container, padding: seq<byte>)
    requires ImuFits(m)
    ensures m.ImuRaw? && |EncodeImu(m, padding)| == 36 + |m.raw| + |padding|
  {
    TimeLength(m.time);
  }

  /** A known header, byte by byte: "$GRP" and one of the eight groups; everything else is passed over. */
  lemma KnownHeaderBytes(b: seq<byte>, k: nat)
    requires k + 6 <= |b|
    ensures KnownHeader(b, k) <==>
      && b[k] == 0x24 && b[k + 1] == 0x47 && b[k + 2] == 0x52 && b[k + 3] == 0x50
      && var group: int := (b[k + 4] as int) + 0x100 * (b[k + 5] as int);
         group in {1, 2, 3, 4, 10001, 10002, 10003, 10009}
  {
    assert b[k..k + 4] == [b[k], b[k + 1], b[k + 2], b[k + 3]] && b[k + 4..k + 6] == [b[k + 4], b[k + 5]];
    PlaceValues(b[k + 4], b[k + 5], 0, 0);
  }

  // ---------------------------------------------------------------- what is sent

  /** A position is followed by its latitude and longitude; every other message is sent alone. */
  lemma SendsMessages(p: Payload)
    requires Sendable(p)
    ensures Sends(MessageOf(p)) == if p.Position? then [MessageOf(p), WGS84(p.lat, p.lon)] else [MessageOf(p)]
  {
  }

  /** A frame: "$GRP", group, size, the payload and four bytes of footer, which the size counts. */
  ghost function FrameOf(p: Payload, footer: seq<byte>): seq<byte>
    requires Sendable(p)
  {
    var group, size := GroupOf(p), |PayloadBytes(p)| + |footer|;
    [0x24, 0x47, 0x52, 0x50] + [group % 256, group / 256 % 256] + [size % 256, size / 256 % 256] + (PayloadBytes(p) + footer)
  }

  lemma FrameLooks(group: nat, payload: seq<byte>)
    ensures FrameBytes(group, payload)
            == [0x24, 0x47, 0x52, 0x50] + [group % 256, group / 256 % 256] + [|payload| % 256, |payload| / 256 % 256] + payload
  {
    TwoLowBytes(group);
    TwoLowBytes(|payload|);
  }

  lemma FrameOfIs(p: Payload, footer: seq<byte>)
    requires Sendable(p)
    ensures FrameOf(p, footer) == FrameBytes(GroupOf(p), PayloadBytes(p) + footer)
  {
    hide PayloadBytes, FrameBytes, GroupOf;
    FrameLooks(GroupOf(p), PayloadBytes(p) + footer);
  }

  lemma TwoLowBytes(n: nat)
    ensures ToLittleEndian(n, 2) == [n % 256, n / 256 % 256]
  {
    assert ToLittleEndian(n / 256, 1) == [n / 256 % 256] + ToLittleEndian(n / 256 / 256, 0);
  }

  /**
   * A fresh decoder given, in one chunk, bytes in which no known header begins, a frame of any group and enough
   * further bytes sends the frame's message first, and for a GRP1 the position behind it.
   */
  lemma FrameIsSent(junk: seq<byte>, p: Payload, footer: seq<byte>, tail: seq<byte>)
    requires Sendable(p) && |footer| == 4 && |PayloadBytes(p)| + 4 < 0x1_0000
    requires forall i :: 0 <= i < |junk| ==> !KnownHeader(junk + FrameOf(p, footer) + tail, i)
    requires |tail| >= |junk| + 8 && |PayloadBytes(p)| + 4 + |tail| > |junk| + 16
    requires |junk| + 8 + |PayloadBytes(p)| + 4 + |tail| <= MAX_STREAM
    ensures Resting(INITIAL)
    ensures var data := junk + FrameOf(p, footer) + tail;
            var r := NextStringSpec(INITIAL, data);
            && |r.log| > 0 && r.log[0] == Decode(|junk|, GroupOf(p), |PayloadBytes(p)| + 4, |data|, MessageOf(p))
            && (if p.Position? then [MessageOf(p), WGS84(p.lat, p.lon)] else [MessageOf(p)]) <= r.sent
  {
    hide PayloadBytes, PayloadSpec, Sends, NextStringSpec, KnownHeader, FrameBytes, FrameOf, MessageOf, GroupOf, Known, Sendable;
    var payload := PayloadBytes(p) + footer;
    PayloadReads(p, |payload|, footer + tail);
    assert payload + tail == PayloadBytes(p) + (footer + tail);
    FrameOfIs(p, footer);
    FrameIsDecoded(junk, GroupOf(p), payload, tail);
    SendsMessages(p);
  }
}
