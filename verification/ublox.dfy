/** The outbound half of the u-blox driver (`class Ublox`): frame assembly
    into a byte buffer, the checksum loop, and the configuration commands
    built on them.

    The bodies of these members live in Ublox.cpp, which is not part of this
    model. What each one sends is reconstructed from the declared structs, the
    constants of the header and the u-blox 8 / M8 protocol specification; the
    comments below say which field values come from the specification. */
module UbloxDriver {
  import opened Bytes
  import opened UbxMessages
  import opened UbxChecksum
  import opened UbxFrames
  import opened UbxConfig
  import opened Transport
  import opened UbxScan
  import Wrappers

  /** `kConfigureMessageSize`: the length of a CFG-MSG frame. */
  const ConfigureMessageSize: nat := 11
  /** `kMinMaxTrkChForMajorGnss` */
  const MinMaxTrkChForMajorGnss: nat := 4

  /** `dynamics_model` (dynModel of CFG-NAV5). */
  datatype DynamicsModel =
    | Portable | Stationary | Pedestrian | Automotive | Sea
    | Airborne1G | Airborne2G | Airborne4G | WristWornWatch | Motorbike
    | RoboticLawnMower | ElectricKickScooter

  function DynModelCode(d: DynamicsModel): byte
  {
    match d
    case Portable => 0
    case Stationary => 2
    case Pedestrian => 3
    case Automotive => 4
    case Sea => 5
    case Airborne1G => 6
    case Airborne2G => 7
    case Airborne4G => 8
    case WristWornWatch => 9
    case Motorbike => 10
    case RoboticLawnMower => 11
    case ElectricKickScooter => 12
  }

  /** `gnss_id` (gnssId of CFG-GNSS). */
  datatype GnssSystem = GPS | SBAS | Galileo | BeiDou | QZSS | GLONASS

  function GnssIdOf(g: GnssSystem): byte
  {
    match g
    case GPS => 0
    case SBAS => 1
    case Galileo => 2
    case BeiDou => 3
    case QZSS => 5
    case GLONASS => 6
  }

  /** The default (reserved, maximum) tracking channels of the public
      `configureGnss_<system>` calls. */
  function DefaultChannels(g: GnssSystem): (byte, byte)
  {
    match g
    case GPS => (8, 16)
    case SBAS => (1, 3)
    case Galileo => (4, 8)
    case BeiDou => (8, 16)
    case QZSS => (0, 3)
    case GLONASS => (8, 14)
  }

  /** The major systems whose maximum channel count must reach
      `kMinMaxTrkChForMajorGnss` (protocol specification, section 32.10.13.1). */
  predicate IsMajorGnss(gnssId: byte)
  {
    gnssId in {GnssIdOf(GPS), GnssIdOf(Galileo), GnssIdOf(BeiDou), GnssIdOf(GLONASS)}
  }

  /** CFG-MSG payload of `enableMsg`: rate 1 (every solution) or 0 (off). */
  function EnableMsgPayload(m: Message, enable: bool): (c: CfgMsg)
    ensures FromKey(MakeKey(c.msgClass, c.msgId)) == Wrappers.Some(m)
    ensures c.rate <= 1 && (c.rate == 1 <==> enable)
  {
    FromKeyOfKey(m);
    CfgMsg(ClassOf(m), IdOf(m), if enable then 1 else 0)
  }

  /** Bit 0 (`dyn`) of the CFG-NAV5 mask: apply the dynamic model. */
  const Nav5DynMask: uint16 := 0x0001

  /** CFG-NAV5 payload of `configureDynamicsModel`: only the `dyn` bit (bit 0)
      of the mask is set, so the receiver applies the dynamic model and keeps
      every other setting; all other fields are zero. */
  function DynamicsModelPayload(d: DynamicsModel): (c: CfgNav5)
    ensures c.Valid()
    ensures c.mask == Nav5DynMask && c.dynModel == DynModelCode(d)
  {
    CfgNav5(Nav5DynMask, DynModelCode(d), 0, 0, 0, 0, 0, 0, 0, 0, 0, 0, 0, 0, 0,
            Zeros(2), 0, 0, Zeros(5))
  }

  /** Bit 0 of a CFG-GNSS block's flags enables the system; bits 16..23 select
      its signals, where 0x01 is the primary L1/E1/B1 signal of every system
      (protocol specification, section 32.10.13.1). */
  const GnssEnableFlag: uint32 := 0x0000_0001
  const GnssPrimarySignal: uint32 := 0x0001_0000

  /** CFG-GNSS payload of `configureGnss`: message version 0, numTrkChHw 0
      (read-only on the receiver), numTrkChUse 0xFF (use every hardware
      channel), one block. */
  function GnssPayload(gnssId: byte, resTrkCh: byte, maxTrkCh: byte, enable: bool): (c: CfgGnss)
    ensures c.block.gnssId == gnssId && c.block.resTrkCh == resTrkCh && c.block.maxTrkCh == maxTrkCh
    ensures c.block.flags % 2 == 1 <==> enable
    ensures c.block.flags / 0x1_0000 % 0x100 == 0x01
    ensures c.numTrkChUse == 0xFF
  {
    var flags := (if enable then GnssEnableFlag else 0) + GnssPrimarySignal;
    CfgGnss(0, 0, 0xFF, CfgGnssBlock(gnssId, resTrkCh, maxTrkCh, 0, flags))
  }

  /** The GNSS configuration frame carries one 8-byte block in a 12-byte
      payload, and the block says what was asked for. */
  lemma GnssFrameShape(gnssId: byte, res: byte, max: byte, enable: bool)
    ensures var f := BuildFrame(CLASS_CFG, ID_CFG_GNSS, EncodeCfgGnss(GnssPayload(gnssId, res, max, enable)));
      && |FramePayload(f)| == CfgGnssSize
      && FramePayload(f)[3] == NumConfigBlocks
      && DecodeCfgGnss(FramePayload(f)).Some?
      && var b := DecodeCfgGnss(FramePayload(f)).value.block;
         b.gnssId == gnssId && b.resTrkCh == res && b.maxTrkCh == max
         && (b.flags % 2 == 1 <==> enable)
  {
  }

  /** A CFG-MSG frame is header + 3 payload bytes + checksum, which is
      `kConfigureMessageSize`. */
  lemma ConfigureMessageFrameSize(m: CfgMsg)
    ensures |BuildFrame(CLASS_CFG, ID_CFG_MSG, EncodeCfgMsg(m))| == ConfigureMessageSize
  {
  }

  /** `configureSolutionRate(200)` with the default nav_rate = 1 and
      time_ref = 1 sends B5 62 06 08 06 00 C8 00 01 00 01 00 DE 6A. */
  lemma SolutionRate200Frame(rate: CfgRate, f: seq<byte>)
    requires rate.measRate == 200 && rate.navRate == 1 && rate.timeRef == 1
    requires f == BuildFrame(CLASS_CFG, ID_CFG_RATE, EncodeCfgRate(rate))
    ensures f == [0xB5, 0x62, 0x06, 0x08, 0x06, 0x00, 0xC8, 0x00, 0x01, 0x00, 0x01, 0x00, 0xDE, 0x6A]
  {
    var payload := EncodeCfgRate(rate);
    var w := Window(CLASS_CFG, ID_CFG_RATE, payload);
    RateWindow(rate, payload, w);
    RateWindowFletcher(w);
    RateFrame(payload, w, f);
  }

  lemma RateFrame(payload: seq<byte>, w: seq<byte>, f: seq<byte>)
    requires |payload| == 6 && payload[0] == 0xC8 && payload[1] == 0 && payload[2] == 1
      && payload[3] == 0 && payload[4] == 1 && payload[5] == 0
    requires w == Window(CLASS_CFG, ID_CFG_RATE, payload)
    requires |w| == 10 && w[0] == 6 && w[1] == 8 && w[2] == 6 && w[3] == 0 && w[4..] == payload
    requires Fletcher(w) == CheckSum(0xDE, 0x6A)
    requires f == BuildFrame(CLASS_CFG, ID_CFG_RATE, payload)
    ensures f == [0xB5, 0x62, 0x06, 0x08, 0x06, 0x00, 0xC8, 0x00, 0x01, 0x00, 0x01, 0x00, 0xDE, 0x6A]
  {
    assert f == [PREAMBLE1, PREAMBLE2] + w + [0xDE, 0x6A];
  }

  /** The bytes the checksum of CFG-RATE(200, 1, 1) covers. */
  lemma RateWindow(rate: CfgRate, payload: seq<byte>, w: seq<byte>)
    requires rate.measRate == 200 && rate.navRate == 1 && rate.timeRef == 1
    requires payload == EncodeCfgRate(rate)
    requires w == Window(CLASS_CFG, ID_CFG_RATE, payload)
    ensures |payload| == 6 && payload[0] == 0xC8 && payload[1] == 0 && payload[2] == 1
      && payload[3] == 0 && payload[4] == 1 && payload[5] == 0
    ensures |w| == 10 && w[0] == 6 && w[1] == 8 && w[2] == 6 && w[3] == 0 && w[4..] == payload
  {
    U16LeSmall(rate.measRate);
    U16LeSmall(rate.navRate);
    U16LeSmall(rate.timeRef);
    U16LeSmall(|payload|);
  }

  /** The checksum of that window, through its closed form. */
  lemma RateWindowFletcher(w: seq<byte>)
    requires |w| == 10 && w[0] == 6 && w[1] == 8 && w[2] == 6 && w[3] == 0 && w[4] == 0xC8
    requires w[5] == 0 && w[6] == 1 && w[7] == 0 && w[8] == 1 && w[9] == 0
    ensures Fletcher(w) == CheckSum(0xDE, 0x6A)
  {
    FletcherClosedForm(w);
    RateWindowSums(w);
  }

  /** Suffix by suffix, the plain and weighted sums of that window. */
  lemma RateWindowSums(w: seq<byte>)
    requires |w| == 10 && w[0] == 6 && w[1] == 8 && w[2] == 6 && w[3] == 0 && w[4] == 0xC8
    requires w[5] == 0 && w[6] == 1 && w[7] == 0 && w[8] == 1 && w[9] == 0
    ensures Sum(w) == 222 && WeightedSum(w) == 1386
  {
    assert w[10..] == [];
    assert w[9..][1..] == w[10..];
    assert Sum(w[9..]) == 0 && WeightedSum(w[9..]) == 0;
    assert w[8..][1..] == w[9..];
    assert Sum(w[8..]) == 1 && WeightedSum(w[8..]) == 2;
    assert w[7..][1..] == w[8..];
    assert Sum(w[7..]) == 1 && WeightedSum(w[7..]) == 2;
    assert w[6..][1..] == w[7..];
    assert Sum(w[6..]) == 2 && WeightedSum(w[6..]) == 6;
    assert w[5..][1..] == w[6..];
    assert Sum(w[5..]) == 2 && WeightedSum(w[5..]) == 6;
    assert w[4..][1..] == w[5..];
    assert Sum(w[4..]) == 202 && WeightedSum(w[4..]) == 1206;
    assert w[3..][1..] == w[4..];
    assert Sum(w[3..]) == 202 && WeightedSum(w[3..]) == 1206;
    assert w[2..][1..] == w[3..];
    assert Sum(w[2..]) == 208 && WeightedSum(w[2..]) == 1254;
    assert w[1..][1..] == w[2..];
    assert Sum(w[1..]) == 216 && WeightedSum(w[1..]) == 1326;
    assert w[0..][1..] == w[1..];
    assert Sum(w[0..]) == 222 && WeightedSum(w[0..]) == 1386;
    assert w[0..] == w;
  }

  /** How the wait reads one completed frame: a frame whose checksum fails is
      discarded before it is interpreted, so only a valid ACK-ACK or ACK-NAK
      naming (cls, id) answers. */
  function CheckedAnswer(f: seq<byte>, cls: byte, id: byte): (r: Wrappers.Option<bool>)
    requires WellFramed(f)
    ensures r.Some? <==> ChecksumValid(f) && AckOutcome(f, cls, id).Some?
    ensures r.Some? ==> r == AckOutcome(f, cls, id)
  {
    if ChecksumValid(f) then AckOutcome(f, cls, id) else Wrappers.None
  }

  /** What `waitForAcknowledge(cls, id)` concludes from the frames the
      scanner completes before `kWaitForGnssAck` runs out, in arrival order:
      the first valid ACK-ACK or ACK-NAK naming (cls, id) decides, frames
      about anything else or with a bad checksum are passed over, and running
      out of frames is the timeout, which fails. */
  function AckVerdict(frames: seq<seq<byte>>, cls: byte, id: byte): bool
    requires forall i :: 0 <= i < |frames| ==> WellFramed(frames[i])
    decreases |frames|
  {
    if frames == [] then false
    else match CheckedAnswer(frames[0], cls, id)
      case Some(acked) => acked
      case None => AckVerdict(frames[1..], cls, id)
  }

  /** Frame i is a valid ACK-ACK for (cls, id), and no earlier valid frame
      answered it. */
  predicate AcceptedAt(frames: seq<seq<byte>>, cls: byte, id: byte, i: int)
    requires forall k :: 0 <= k < |frames| ==> WellFramed(frames[k])
  {
    && 0 <= i < |frames|
    && ChecksumValid(frames[i])
    && AckOutcome(frames[i], cls, id) == Wrappers.Some(true)
    && forall j :: 0 <= j < i ==> !ChecksumValid(frames[j]) || AckOutcome(frames[j], cls, id).None?
  }

  /** The wait succeeds exactly when some frame with a valid checksum
      acknowledges (cls, id) and no earlier valid frame answered it: a NAK, a
      corrupted ACK, or no answer at all, is a failure. */
  lemma {:induction false} AckVerdictFirstAnswer(frames: seq<seq<byte>>, cls: byte, id: byte)
    requires forall i :: 0 <= i < |frames| ==> WellFramed(frames[i])
    ensures AckVerdict(frames, cls, id) <==> exists i :: AcceptedAt(frames, cls, id, i)
    decreases |frames|
  {
    if frames != [] {
      var tail := frames[1..];
      if CheckedAnswer(frames[0], cls, id).None? {
        AckVerdictFirstAnswer(tail, cls, id);
        if AckVerdict(frames, cls, id) {
          var i :| AcceptedAt(tail, cls, id, i);
          AcceptedAtShift(frames, cls, id, i + 1);
        } else {
          forall i ensures !AcceptedAt(frames, cls, id, i) {
            AcceptedAtShift(frames, cls, id, i);
          }
        }
      } else if AckVerdict(frames, cls, id) {
        assert AcceptedAt(frames, cls, id, 0);
      } else {
        assert !AcceptedAt(frames, cls, id, 0);
        forall i | 0 < i ensures !AcceptedAt(frames, cls, id, i) {
        }
      }
    }
  }

  /** Past an unrelated first frame, acceptance moves down by one. */
  lemma AcceptedAtShift(frames: seq<seq<byte>>, cls: byte, id: byte, i: int)
    requires forall k :: 0 <= k < |frames| ==> WellFramed(frames[k])
    requires frames != [] && CheckedAnswer(frames[0], cls, id).None?
    ensures AcceptedAt(frames, cls, id, i) <==> 0 < i && AcceptedAt(frames[1..], cls, id, i - 1)
  {
    var tail := frames[1..];
    if 0 < i < |frames| {
      assert frames[i] == tail[i - 1];
      assert (forall j :: 0 <= j < i ==> !ChecksumValid(frames[j]) || AckOutcome(frames[j], cls, id).None?)
         <==> (forall j :: 0 <= j < i - 1 ==> !ChecksumValid(tail[j]) || AckOutcome(tail[j], cls, id).None?) by {
        assert forall j :: 0 <= j < i - 1 ==> tail[j] == frames[j + 1];
      }
    }
  }

  class Ublox {
    /** `spi_dev_` */
    const spi: SpiDev
    /** `scanner_`, `parser_`: the inbound half, fed by the polling loop.
        The loop itself is not modelled: what they deliver during a wait is
        the `frames` argument of `WaitForAcknowledge` and the configure
        methods. */
    const scanner: UbxScanner
    const parser: UbxParser

    constructor (spi: SpiDev, scanner: UbxScanner, parser: UbxParser)
      ensures this.spi == spi && this.scanner == scanner && this.parser == parser
    {
      this.spi := spi;
      this.scanner := scanner;
      this.parser := parser;
    }

    /** `spliceMemory(dest, src, size, dest_offset)`: copies src into dest at
        the offset and returns the offset just past the copy. Everything
        outside the copied range is left as it was. */
    static method SpliceMemory(dest: array<byte>, src: seq<byte>, destOffset: nat) returns (end: nat)
      requires destOffset + |src| <= dest.Length
      modifies dest
      ensures end == destOffset + |src|
      ensures dest[..] == old(dest[..destOffset]) + src + old(dest[destOffset + |src|..])
    {
      for i := 0 to |src|
        invariant dest[..] == old(dest[..destOffset]) + src[..i] + old(dest[destOffset + i..])
      {
        dest[destOffset + i] := src[i];
        assert src[..i + 1] == src[..i] + [src[i]];
      }
      assert src[..|src|] == src;
      end := destOffset + |src|;
    }

    /** `calculateCheckSum(message, size)`: the running sums over the `size`
        bytes starting at `offset` (the C++ caller passes a pointer already
        advanced by `kPreambleOffset`). */
    static method CalculateCheckSum(message: array<byte>, offset: nat, size: nat) returns (c: CheckSum)
      requires offset + size <= message.Length
      ensures c == Fletcher(message[offset..offset + size])
    {
      var ckA: byte, ckB: byte := 0, 0;
      for i := 0 to size
        invariant CheckSum(ckA, ckB) == Fletcher(message[offset..offset + i])
      {
        assert message[offset..offset + i + 1][..i] == message[offset..offset + i];
        ckA := (ckA + message[offset + i]) % 0x100;
        ckB := (ckB + ckA) % 0x100;
      }
      c := CheckSum(ckA, ckB);
    }

    /** `sendMessage(msg_class, msg_id, msg, size)`: assembles header, payload
        and checksum into a `kUbxBufferLength` buffer and transmits the frame.
        A payload whose frame would not fit the buffer is refused and nothing
        is sent. */
    method SendMessage(msgClass: byte, msgId: byte, msg: seq<byte>) returns (ok: bool)
      requires |msg| < 0x1_0000
      modifies spi
      ensures ok <==> |msg| <= MaxPayload
      ensures spi.sent == old(spi.sent) + (if ok then [BuildFrame(msgClass, msgId, msg)] else [])
    {
      if HeaderLength + |msg| + ChecksumLength > BufferLength {
        return false;
      }
      var buffer := new byte[BufferLength];
      var head := EncodeHeader(UbxHeader(PREAMBLE1, PREAMBLE2, msgClass, msgId, |msg|));
      var offset := SpliceMemory(buffer, head, 0);
      offset := SpliceMemory(buffer, msg, offset);
      assert buffer[..offset] == head + msg;
      assert buffer[PreambleOffset..offset] == Window(msgClass, msgId, msg);
      var checksum := CalculateCheckSum(buffer, PreambleOffset, HeaderLength - PreambleOffset + |msg|);
      offset := SpliceMemory(buffer, EncodeCheckSum(checksum), offset);
      assert buffer[..offset] == BuildFrame(msgClass, msgId, msg);
      var _ := spi.Transfer(buffer[..offset]);
      ok := true;
    }

    /** `waitForAcknowledge(cls, id)`: polls the scanner until a completed
        frame with a valid checksum answers (cls, id) or the time runs out. `frames` are the frames
        the scanner completes within the wait, in arrival order. */
    method WaitForAcknowledge(cls: byte, id: byte, frames: seq<seq<byte>>) returns (ok: bool)
      requires forall i :: 0 <= i < |frames| ==> WellFramed(frames[i])
      ensures ok == AckVerdict(frames, cls, id)
    {
      var k := 0;
      while k < |frames|
        invariant 0 <= k <= |frames|
        invariant AckVerdict(frames, cls, id) == AckVerdict(frames[k..], cls, id)
      {
        assert frames[k..][0] == frames[k] && frames[k..][1..] == frames[k + 1..];
        var outcome := CheckedAnswer(frames[k], cls, id);
        if outcome.Some? {
          return outcome.value;
        }
        k := k + 1;
      }
      return false;
    }

    /** `enableMsg(msg, enable)`: one CFG-MSG frame, then the wait for its
        acknowledgement among `frames`. */
    method EnableMsg(m: Message, enable: bool, frames: seq<seq<byte>>) returns (ok: bool)
      requires forall i :: 0 <= i < |frames| ==> WellFramed(frames[i])
      modifies spi
      ensures ok <==> AckVerdict(frames, CLASS_CFG, ID_CFG_MSG)
      ensures spi.sent == old(spi.sent) + [BuildFrame(CLASS_CFG, ID_CFG_MSG, EncodeCfgMsg(EnableMsgPayload(m, enable)))]
    {
      var _ := SendMessage(CLASS_CFG, ID_CFG_MSG, EncodeCfgMsg(EnableMsgPayload(m, enable)));
      ok := WaitForAcknowledge(CLASS_CFG, ID_CFG_MSG, frames);
    }

    /** `configureSolutionRate(meas_rate, nav_rate, time_ref)`: one CFG-RATE
        frame, then the wait for its acknowledgement. */
    method ConfigureSolutionRate(measRate: uint16, navRate: uint16, timeRef: uint16, frames: seq<seq<byte>>)
      returns (ok: bool)
      requires forall i :: 0 <= i < |frames| ==> WellFramed(frames[i])
      modifies spi
      ensures ok <==> AckVerdict(frames, CLASS_CFG, ID_CFG_RATE)
      ensures spi.sent == old(spi.sent) + [BuildFrame(CLASS_CFG, ID_CFG_RATE, EncodeCfgRate(CfgRate(measRate, navRate, timeRef)))]
    {
      var _ := SendMessage(CLASS_CFG, ID_CFG_RATE, EncodeCfgRate(CfgRate(measRate, navRate, timeRef)));
      ok := WaitForAcknowledge(CLASS_CFG, ID_CFG_RATE, frames);
    }

    /** `configureDynamicsModel(dyn_model)`: one CFG-NAV5 frame, then the wait
        for its acknowledgement. */
    method ConfigureDynamicsModel(d: DynamicsModel, frames: seq<seq<byte>>) returns (ok: bool)
      requires forall i :: 0 <= i < |frames| ==> WellFramed(frames[i])
      modifies spi
      ensures ok <==> AckVerdict(frames, CLASS_CFG, ID_CFG_NAV5)
      ensures spi.sent == old(spi.sent) + [BuildFrame(CLASS_CFG, ID_CFG_NAV5, EncodeCfgNav5(DynamicsModelPayload(d)))]
    {
      var payload := EncodeCfgNav5(DynamicsModelPayload(d));
      var _ := SendMessage(CLASS_CFG, ID_CFG_NAV5, payload);
      ok := WaitForAcknowledge(CLASS_CFG, ID_CFG_NAV5, frames);
    }

    /** `configureGnss(gnss_id, res_track_ch, max_track_ch, enable)`: one
        CFG-GNSS frame with a single block, then the wait for its
        acknowledgement. A major system asked for fewer than
        `kMinMaxTrkChForMajorGnss` channels is refused before anything is
        sent. */
    method ConfigureGnss(gnssId: byte, resTrkCh: byte, maxTrkCh: byte, enable: bool, frames: seq<seq<byte>>)
      returns (ok: bool)
      requires forall i :: 0 <= i < |frames| ==> WellFramed(frames[i])
      modifies spi
      ensures ok <==> !(IsMajorGnss(gnssId) && maxTrkCh < MinMaxTrkChForMajorGnss)
                      && AckVerdict(frames, CLASS_CFG, ID_CFG_GNSS)
      ensures spi.sent == old(spi.sent) +
        (if IsMajorGnss(gnssId) && maxTrkCh < MinMaxTrkChForMajorGnss then []
         else [BuildFrame(CLASS_CFG, ID_CFG_GNSS, EncodeCfgGnss(GnssPayload(gnssId, resTrkCh, maxTrkCh, enable)))])
    {
      if IsMajorGnss(gnssId) && maxTrkCh < MinMaxTrkChForMajorGnss {
        return false;
      }
      var _ := SendMessage(CLASS_CFG, ID_CFG_GNSS, EncodeCfgGnss(GnssPayload(gnssId, resTrkCh, maxTrkCh, enable)));
      ok := WaitForAcknowledge(CLASS_CFG, ID_CFG_GNSS, frames);
    }

    /** `configureGnss_GPS` ... `configureGnss_GLONASS`: `configureGnss` with the
        system's id; callers that omit the channel counts pass
        `DefaultChannels`. */
    method ConfigureGnssSystem(g: GnssSystem, enable: bool, resTrkCh: byte, maxTrkCh: byte, frames: seq<seq<byte>>)
      returns (ok: bool)
      requires forall i :: 0 <= i < |frames| ==> WellFramed(frames[i])
      modifies spi
      ensures ok <==> !(IsMajorGnss(GnssIdOf(g)) && maxTrkCh < MinMaxTrkChForMajorGnss)
                      && AckVerdict(frames, CLASS_CFG, ID_CFG_GNSS)
      ensures spi.sent == old(spi.sent) +
        (if IsMajorGnss(GnssIdOf(g)) && maxTrkCh < MinMaxTrkChForMajorGnss then []
         else [BuildFrame(CLASS_CFG, ID_CFG_GNSS, EncodeCfgGnss(GnssPayload(GnssIdOf(g), resTrkCh, maxTrkCh, enable)))])
    {
      ok := ConfigureGnss(GnssIdOf(g), resTrkCh, maxTrkCh, enable, frames);
    }
  }

  /** Every system's default channel counts are accepted by `configureGnss`,
      and reserve no more channels than they allow. */
  lemma DefaultChannelsAccepted(g: GnssSystem)
    ensures DefaultChannels(g).0 <= DefaultChannels(g).1
    ensures !(IsMajorGnss(GnssIdOf(g)) && DefaultChannels(g).1 < MinMaxTrkChForMajorGnss)
  {
  }
}
