/** The UBX frame scanner (`UBXScanner`) and the parser view onto its buffer
    (`UBXParser`). The scanner consumes one byte per `update` call and walks
    the declared states Sync1, Sync2, Class, ID, Length1, Length2, Payload,
    CK_A, CK_B, Done.

    The method bodies of the scanner live in Ublox.cpp, which is not part of
    this model; the transitions below are those the state names, the fields
    and the frame structure of the u-blox protocol specification (section
    32.2) call for:
    - Sync1 ignores every byte but 0xB5; Sync2 drops back to Sync1 on any byte
      but 0x62, so a frame is only entered after the two-byte preamble;
    - class, id and both length bytes are stored unconditionally; the length
      is read low byte first;
    - a declared length whose whole frame (6-byte header, payload, 2 checksum
      bytes) would not fit the 1024-byte buffer abandons the frame back to
      Sync1 instead of writing past the buffer;
    - the payload countdown consumes exactly the declared number of bytes
      (none for an empty payload), then CK_A and CK_B are stored;
    - Done keeps the completed frame readable and ignores further bytes until
      the owner calls reset. The scanner never checks the checksum itself. */
module UbxScan {
  import opened Bytes
  import opened UbxMessages
  import opened UbxFrames

  datatype State = Sync1 | Sync2 | Class | ID | Length1 | Length2 | Payload | CK_A | CK_B | Done

  /** The scanner's state as a value: `buf` is `message_[..position_]`,
      `payloadLength` the payload countdown, `messageLength` the length of the
      completed frame. */
  datatype Scan = Scan(state: State, buf: seq<byte>, payloadLength: nat, messageLength: nat)

  /** The state `reset()` leaves. */
  const Init := Scan(Sync1, [], 0, 0)

  /** One `update(data)` call. A byte is either appended to the buffer,
      ignored, or resets the scanner; a frame completes only from CK_B; and
      Done holds the frame until `reset`. */
  function Step(s: Scan, b: byte): (t: Scan)
    ensures t.buf == s.buf + [b] || t == s || t == Init
    ensures t.state == Done && s.state != Done ==> s.state == CK_B && t.messageLength == |t.buf|
    ensures s.state == Done ==> t == s
  {
    var stored := s.buf + [b];
    match s.state
    case Sync1 => if b == PREAMBLE1 then s.(state := Sync2, buf := stored) else s
    case Sync2 => if b == PREAMBLE2 then s.(state := Class, buf := stored) else Init
    case Class => s.(state := ID, buf := stored)
    case ID => s.(state := Length1, buf := stored)
    case Length1 => s.(state := Length2, buf := stored, payloadLength := b)
    case Length2 =>
      var n := s.payloadLength + 0x100 * b;
      if HeaderLength + n + ChecksumLength > BufferLength then Init
      else s.(state := if n == 0 then CK_A else Payload, buf := stored, payloadLength := n)
    case Payload =>
      if s.payloadLength <= 1 then s.(state := CK_A, buf := stored, payloadLength := 0)
      else s.(buf := stored, payloadLength := s.payloadLength - 1)
    case CK_A => s.(state := CK_B, buf := stored)
    case CK_B => s.(state := Done, buf := stored, messageLength := |stored|)
    case Done => s
  }

  /** The states a scanner can be in, position by position. Among other
      things the write position never exceeds the buffer, and in Done the
      buffer holds a well-framed message of the recorded length. */
  predicate Inv(s: Scan)
  {
    && |s.buf| <= BufferLength
    && (s.state != Done ==> s.messageLength == 0)
    && (s.state !in {Sync1, Sync2} ==> |s.buf| >= 2 && s.buf[0] == PREAMBLE1 && s.buf[1] == PREAMBLE2)
    && match s.state
       case Sync1 => s.buf == [] && s.payloadLength == 0
       case Sync2 => s.buf == [PREAMBLE1] && s.payloadLength == 0
       case Class => |s.buf| == 2 && s.payloadLength == 0
       case ID => |s.buf| == 3 && s.payloadLength == 0
       case Length1 => |s.buf| == 4 && s.payloadLength == 0
       case Length2 => |s.buf| == 5 && s.payloadLength == s.buf[4]
       case Payload =>
         && |s.buf| >= HeaderLength && s.payloadLength > 0
         && |s.buf| + s.payloadLength == HeaderLength + DeclaredLength(s.buf)
         && HeaderLength + DeclaredLength(s.buf) + ChecksumLength <= BufferLength
       case CK_A =>
         && |s.buf| >= HeaderLength && s.payloadLength == 0
         && |s.buf| == HeaderLength + DeclaredLength(s.buf)
         && |s.buf| + ChecksumLength <= BufferLength
       case CK_B =>
         && |s.buf| >= HeaderLength && s.payloadLength == 0
         && |s.buf| == HeaderLength + DeclaredLength(s.buf) + 1
         && |s.buf| + 1 <= BufferLength
       case Done => WellFramed(s.buf) && s.messageLength == |s.buf|
  }

  /** Every `update` keeps the scanner's invariant, whatever the byte. */
  lemma StepInv(s: Scan, b: byte)
    requires Inv(s)
    ensures Inv(Step(s, b))
  {
    var t := Step(s, b);
    if |s.buf| >= HeaderLength {
      assert DeclaredLength(s.buf + [b]) == DeclaredLength(s.buf);
    }
    if s.state == Length2 {
      assert (s.buf + [b])[4] == s.buf[4] && (s.buf + [b])[5] == b;
    }
  }

  class UbxScanner {
    /** `message_[kUbxBufferLength]` */
    const message: array<byte>
    /** `message_length_` */
    var messageLength: nat
    /** `position_` */
    var position: nat
    /** `payload_length_` */
    var payloadLength: nat
    /** `state_` */
    var state: State

    ghost predicate Valid()
      reads this, message
    {
      message.Length == BufferLength && position <= BufferLength && Inv(Model())
    }

    /** The scanner as a Scan value. */
    ghost function Model(): Scan
      reads this, message
      requires position <= message.Length
    {
      Scan(state, message[..position], payloadLength, messageLength)
    }

    constructor ()
      ensures Valid() && Model() == Init
    {
      message := new byte[BufferLength];
      messageLength, position, payloadLength, state := 0, 0, 0, Sync1;
    }

    /** `reset()`: back to Sync1 with the cursors zeroed, from any state. The
        buffer's contents are not touched. */
    method Reset()
      requires message.Length == BufferLength
      modifies this
      ensures Valid() && Model() == Init
    {
      messageLength, position, payloadLength, state := 0, 0, 0, Sync1;
    }

    /** `message_[position_++] = data` */
    method Store(data: byte)
      requires position < message.Length
      modifies this`position, message
      ensures position == old(position) + 1
      ensures message[..position] == old(message[..position]) + [data]
    {
      message[position] := data;
      position := position + 1;
    }

    /** `update(data)`: one step of the state machine; returns the new state. */
    method Update(data: byte) returns (st: State)
      requires Valid()
      modifies this, message
      ensures Valid() && Model() == Step(old(Model()), data)
      ensures st == state
    {
      ghost var s := Model();
      assert s.buf == message[..position];
      match state {
        case Sync1 =>
          if data == PREAMBLE1 {
            Store(data);
            state := Sync2;
          }
        case Sync2 =>
          if data == PREAMBLE2 {
            Store(data);
            state := Class;
          } else {
            Reset();
          }
        case Class =>
          Store(data);
          state := ID;
        case ID =>
          Store(data);
          state := Length1;
        case Length1 =>
          Store(data);
          payloadLength := data;
          state := Length2;
        case Length2 =>
          var n := payloadLength + 0x100 * data;
          if HeaderLength + n + ChecksumLength > BufferLength {
            Reset();
          } else {
            Store(data);
            payloadLength := n;
            state := if n == 0 then CK_A else Payload;
          }
        case Payload =>
          Store(data);
          if payloadLength <= 1 {
            payloadLength := 0;
            state := CK_A;
          } else {
            payloadLength := payloadLength - 1;
          }
        case CK_A =>
          Store(data);
          state := CK_B;
        case CK_B =>
          Store(data);
          messageLength := position;
          state := Done;
        case Done =>
      }
      assert Model() == Step(s, data);
      StepInv(s, data);
      st := state;
    }

    /** `getPosition()`: the write cursor never exceeds the buffer. */
    function GetPosition(): (r: nat)
      reads this, message
      requires Valid()
      ensures r <= BufferLength
    {
      position
    }

    /** `getMessageLength()`: zero until a frame completes, then the length of
        the whole frame, header and checksum included. */
    function GetMessageLength(): (r: nat)
      reads this, message
      requires Valid()
      ensures state != Done ==> r == 0
      ensures state == Done ==> r == HeaderLength + DeclaredLength(message[..position]) + ChecksumLength
    {
      messageLength
    }
  }

  /** `UBXParser`: a read-only view onto a scanner's buffer. */
  class UbxParser {
    const scanner: UbxScanner

    constructor (scanner: UbxScanner)
      ensures this.scanner == scanner
    {
      this.scanner := scanner;
    }

    /** `calcId()`: the message key from the bytes at offsets 2 and 3, right
        after the preamble. On a completed frame these are its class and id,
        and the key names a `message_t` value exactly when the frame is one
        of the known messages. */
    method CalcId() returns (id: uint16)
      requires scanner.Valid()
      ensures id / 0x100 == scanner.message[2] && id % 0x100 == scanner.message[3]
      ensures scanner.state == Done ==>
        && id / 0x100 == FrameClass(scanner.Model().buf)
        && id % 0x100 == FrameId(scanner.Model().buf)
    {
      id := MakeKey(scanner.message[2], scanner.message[3]);
    }

    /** `getLength()`: the scanner's completed-message length. */
    function GetLength(): (r: nat)
      reads this, scanner, scanner.message
      requires scanner.Valid()
      ensures scanner.state == Done ==> r == |scanner.Model().buf|
    {
      scanner.GetMessageLength()
    }
  }
}
