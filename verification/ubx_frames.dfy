/** UBX frames (u-blox 8 / M8 protocol specification, section 32.2): the two
    preamble bytes 0xB5 0x62, a class byte, an id byte, a little-endian 16-bit
    payload length, the payload, and the two checksum bytes CK_A, CK_B computed
    over class..end of payload (section 32.4). */
module UbxFrames {
  import opened Bytes
  import opened UbxChecksum
  import opened UbxMessages

  /** `kUbxBufferLength`: the capacity of every frame buffer. */
  const BufferLength: nat := 1024
  /** `kPreambleOffset`: where the checksum window starts. */
  const PreambleOffset: nat := 2
  /** `sizeof(UbxHeader)` and `sizeof(CheckSum)`. */
  const HeaderLength: nat := 6
  const ChecksumLength: nat := 2
  /** The largest payload whose frame fits a buffer. */
  const MaxPayload: nat := BufferLength - HeaderLength - ChecksumLength

  /** `struct PACKED UbxHeader` */
  datatype UbxHeader = UbxHeader(preamble1: byte, preamble2: byte, msgClass: byte, msgId: byte, length: uint16)

  /** The packed layout of UbxHeader: six bytes, length low byte first. */
  function EncodeHeader(h: UbxHeader): (r: seq<byte>)
    ensures |r| == HeaderLength
    ensures DecodeHeader(r) == h
  {
    [h.preamble1, h.preamble2, h.msgClass, h.msgId] + U16Le(h.length)
  }

  function DecodeHeader(b: seq<byte>): UbxHeader
    requires |b| == HeaderLength
  {
    UbxHeader(b[0], b[1], b[2], b[3], U16FromLe(b[4], b[5]))
  }

  /** The bytes the checksum covers for a frame with this header and payload. */
  function Window(cls: byte, id: byte, payload: seq<byte>): seq<byte>
    requires |payload| < 0x1_0000
  {
    [cls, id] + U16Le(|payload|) + payload
  }

  /** The frame `sendMessage` assembles: header, payload, checksum. */
  function BuildFrame(cls: byte, id: byte, payload: seq<byte>): (f: seq<byte>)
    requires |payload| < 0x1_0000
    ensures |f| == HeaderLength + |payload| + ChecksumLength
    ensures WellFramed(f) && ChecksumValid(f)
    ensures FrameClass(f) == cls && FrameId(f) == id && FramePayload(f) == payload
    ensures FrameKey(f) == MakeKey(cls, id)
  {
    var h := EncodeHeader(UbxHeader(PREAMBLE1, PREAMBLE2, cls, id, |payload|));
    var f := h + payload + EncodeCheckSum(Fletcher(Window(cls, id, payload)));
    assert f[2..|f| - 2] == Window(cls, id, payload);
    assert f[6..|f| - 2] == payload;
    f
  }

  // Accessors of a frame held in a buffer; these are the offsets UBXParser
  // reads (class at 2 and id at 3, right after the preamble).

  function FrameClass(f: seq<byte>): byte
    requires |f| >= HeaderLength
  {
    f[2]
  }

  function FrameId(f: seq<byte>): byte
    requires |f| >= HeaderLength
  {
    f[3]
  }

  /** The message key `calcId` builds from a frame. */
  function FrameKey(f: seq<byte>): uint16
    requires |f| >= HeaderLength
  {
    MakeKey(f[2], f[3])
  }

  /** The payload length the header declares. */
  function DeclaredLength(f: seq<byte>): uint16
    requires |f| >= HeaderLength
  {
    U16FromLe(f[4], f[5])
  }

  function FramePayload(f: seq<byte>): seq<byte>
    requires |f| >= HeaderLength + ChecksumLength
  {
    f[HeaderLength..|f| - ChecksumLength]
  }

  /** The preamble is in place and the length matches the declared one. */
  predicate WellFramed(f: seq<byte>)
  {
    && |f| >= HeaderLength + ChecksumLength
    && f[0] == PREAMBLE1 && f[1] == PREAMBLE2
    && |f| == HeaderLength + DeclaredLength(f) + ChecksumLength
  }

  /** The stored CK_A, CK_B equal the checksum recomputed over class..end of
      payload. */
  predicate ChecksumValid(f: seq<byte>)
  {
    && |f| >= HeaderLength + ChecksumLength
    && EncodeCheckSum(Fletcher(f[PreambleOffset..|f| - ChecksumLength])) == f[|f| - ChecksumLength..]
  }

  /** Checksum validation accepts exactly the frames the builder produces: a
      well-framed buffer passes iff it is the frame built from its own class,
      id and payload. */
  lemma ValidIffBuilt(f: seq<byte>)
    requires WellFramed(f)
    ensures ChecksumValid(f) <==> f == BuildFrame(FrameClass(f), FrameId(f), FramePayload(f))
  {
    var p := FramePayload(f);
    assert |p| == DeclaredLength(f);
    assert U16Le(|p|) == [f[4], f[5]];
    var g := BuildFrame(FrameClass(f), FrameId(f), p);
    assert f[..HeaderLength] == g[..HeaderLength];
    assert f[PreambleOffset..|f| - ChecksumLength] == Window(f[2], f[3], p);
    if ChecksumValid(f) {
      assert f == f[..HeaderLength] + p + f[|f| - ChecksumLength..];
      assert g == g[..HeaderLength] + p + g[|g| - ChecksumLength..];
    }
  }

  /** Changing any single byte of a valid frame after the preamble (class,
      id, length, payload or either checksum byte) makes its checksum fail. */
  lemma CorruptionDetected(f: seq<byte>, j: nat, v: byte)
    requires ChecksumValid(f)
    requires PreambleOffset <= j < |f| && v != f[j]
    ensures !ChecksumValid(f[j := v])
  {
    var g := f[j := v];
    var n := |f| - ChecksumLength;
    if j < n {
      assert g[PreambleOffset..n] == f[PreambleOffset..n][j - PreambleOffset := v];
      SingleByteChangeDetected(f[PreambleOffset..n], j - PreambleOffset, v);
      assert g[n..] == f[n..];
    } else {
      assert g[PreambleOffset..n] == f[PreambleOffset..n];
      assert g[n..][j - n] != f[n..][j - n];
    }
  }

  /** ACK-ACK and ACK-NAK carry the class and id of the command they answer
      as their two payload bytes (protocol specification, section 32.9). The
      result is Some(true) for an acknowledgement of (cls, id), Some(false)
      for a rejection of it, and None for any other frame. */
  function AckOutcome(f: seq<byte>, cls: byte, id: byte): (r: Wrappers.Option<bool>)
    requires WellFramed(f)
    ensures r.Some? <==> FrameClass(f) == CLASS_ACK && FrameId(f) in {ID_ACK_ACK, ID_ACK_NAK}
                         && FramePayload(f) == [cls, id]
    ensures r == Wrappers.Some(true) ==> FromKey(FrameKey(f)) == Wrappers.Some(AckAck)
    ensures r == Wrappers.Some(false) ==> FromKey(FrameKey(f)) == Wrappers.Some(AckNak)
  {
    var key := FrameKey(f);
    if FramePayload(f) != [cls, id] then Wrappers.None
    else if key == Key(AckAck) then Wrappers.Some(true)
    else if key == Key(AckNak) then Wrappers.Some(false)
    else Wrappers.None
  }
}
