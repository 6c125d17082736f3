/** The UBX protocol bytes and the closed set of message keys the driver
    knows (`Ublox::ubx_protocol_bytes` and `Ublox::message_t`). A key packs a
    message's class into the high byte and its id into the low byte:
    `(class << 8) + id`. */
module UbxMessages {
  import opened Bytes
  import opened Wrappers

  const PREAMBLE1: byte := 0xB5
  const PREAMBLE2: byte := 0x62

  const CLASS_NAV: byte := 0x01
  const CLASS_ACK: byte := 0x05
  const CLASS_CFG: byte := 0x06
  const CLASS_MON: byte := 0x0A

  const ID_NAV_POSLLH: byte := 0x02
  const ID_NAV_STATUS: byte := 0x03
  const ID_NAV_DOP: byte := 0x04
  const ID_NAV_PVT: byte := 0x07
  const ID_NAV_VELNED: byte := 0x12
  const ID_NAV_TIMEGPS: byte := 0x20
  const ID_NAV_TIMEUTC: byte := 0x21
  const ID_NAV_COV: byte := 0x36

  const ID_ACK_NAK: byte := 0x00
  const ID_ACK_ACK: byte := 0x01

  const ID_CFG_MSG: byte := 0x01
  const ID_CFG_RATE: byte := 0x08
  const ID_CFG_NAV5: byte := 0x24
  const ID_CFG_GNSS: byte := 0x3E

  const ID_MON_HW: byte := 0x09
  const ID_MON_HW2: byte := 0x0B

  /** The twelve values of `message_t`. */
  datatype Message =
    | NavPosllh | NavStatus | NavDop | NavPvt | NavVelned | NavTimegps | NavTimeutc | NavCov
    | AckNak | AckAck
    | MonHw | MonHw2

  function ClassOf(m: Message): byte
  {
    match m
    case NavPosllh | NavStatus | NavDop | NavPvt | NavVelned | NavTimegps | NavTimeutc | NavCov => CLASS_NAV
    case AckNak | AckAck => CLASS_ACK
    case MonHw | MonHw2 => CLASS_MON
  }

  function IdOf(m: Message): byte
  {
    match m
    case NavPosllh => ID_NAV_POSLLH
    case NavStatus => ID_NAV_STATUS
    case NavDop => ID_NAV_DOP
    case NavPvt => ID_NAV_PVT
    case NavVelned => ID_NAV_VELNED
    case NavTimegps => ID_NAV_TIMEGPS
    case NavTimeutc => ID_NAV_TIMEUTC
    case NavCov => ID_NAV_COV
    case AckNak => ID_ACK_NAK
    case AckAck => ID_ACK_ACK
    case MonHw => ID_MON_HW
    case MonHw2 => ID_MON_HW2
  }

  /** `(class << 8) + id`: a class byte shifted left by 8 is class * 256. The
      key fits in 16 bits and gives back both bytes. */
  function MakeKey(cls: byte, id: byte): (k: uint16)
    ensures k / 0x100 == cls && k % 0x100 == id
  {
    cls * 0x100 + id
  }

  /** Encodes a message as its `message_t` value. */
  function Key(m: Message): (k: uint16)
    ensures k / 0x100 == ClassOf(m) && k % 0x100 == IdOf(m)
  {
    MakeKey(ClassOf(m), IdOf(m))
  }

  /** Decodes a key: the message whose `message_t` value it is, if any. */
  function FromKey(k: int): (r: Option<Message>)
    ensures r.Some? ==> Key(r.value) == k
    ensures r.None? ==> forall m: Message :: Key(m) != k
  {
    if k == Key(NavPosllh) then Some(NavPosllh)
    else if k == Key(NavStatus) then Some(NavStatus)
    else if k == Key(NavDop) then Some(NavDop)
    else if k == Key(NavPvt) then Some(NavPvt)
    else if k == Key(NavVelned) then Some(NavVelned)
    else if k == Key(NavTimegps) then Some(NavTimegps)
    else if k == Key(NavTimeutc) then Some(NavTimeutc)
    else if k == Key(NavCov) then Some(NavCov)
    else if k == Key(AckNak) then Some(AckNak)
    else if k == Key(AckAck) then Some(AckAck)
    else if k == Key(MonHw) then Some(MonHw)
    else if k == Key(MonHw2) then Some(MonHw2)
    else None
  }

  /** Decoding a message's key gives the message back. */
  lemma FromKeyOfKey(m: Message)
    ensures FromKey(Key(m)) == Some(m)
  {
    var r := FromKey(Key(m));
    assert r.Some?;
    KeyInjective(r.value, m);
  }

  /** The twelve `message_t` values are pairwise distinct. */
  lemma KeyInjective(m1: Message, m2: Message)
    requires Key(m1) == Key(m2)
    ensures m1 == m2
  {
  }
}
