/** The MPU9250 inertial sensor driver over SPI: register reads and writes,
    the identity probe, the initialisation register table, the scale
    settings, and the assembly of 16-bit sensor words from the 21-byte
    register burst that `update` reads.

    Register addresses and the scale codes are declared in MPU9250.h, which
    is not part of this model; their values here are those of the MPU-9250
    and AK8963 register maps. Floating-point unit conversions are not
    modelled: where the driver stores physical values, the model keeps the
    raw signed words they are computed from. */
module Mpu9250Driver {
  import opened Bytes
  import opened Wrappers
  import opened Transport

  /** `DATA_LENGTH`: the size of the transfer buffers of ReadRegs. */
  const DATA_LENGTH: nat := 255
  /** `READ_FLAG`: bit 7 of the register address selects a read. */
  const READ_FLAG: byte := 0x80

  const MPUREG_CONFIG: byte := 0x1A
  const MPUREG_GYRO_CONFIG: byte := 0x1B
  const MPUREG_ACCEL_CONFIG: byte := 0x1C
  const MPUREG_ACCEL_CONFIG_2: byte := 0x1D
  const MPUREG_I2C_MST_CTRL: byte := 0x24
  const MPUREG_I2C_SLV0_ADDR: byte := 0x25
  const MPUREG_I2C_SLV0_REG: byte := 0x26
  const MPUREG_I2C_SLV0_CTRL: byte := 0x27
  const MPUREG_INT_PIN_CFG: byte := 0x37
  const MPUREG_ACCEL_XOUT_H: byte := 0x3B
  const MPUREG_EXT_SENS_DATA_00: byte := 0x49
  const MPUREG_I2C_SLV0_DO: byte := 0x63
  const MPUREG_USER_CTRL: byte := 0x6A
  const MPUREG_PWR_MGMT_1: byte := 0x6B
  const MPUREG_PWR_MGMT_2: byte := 0x6C
  const MPUREG_WHOAMI: byte := 0x75

  const AK8963_I2C_ADDR: byte := 0x0C
  const AK8963_WIA: byte := 0x00
  const AK8963_HXL: byte := 0x03
  const AK8963_CNTL1: byte := 0x0A
  const AK8963_CNTL2: byte := 0x0B
  const AK8963_ASAX: byte := 0x10

  /** Full-scale codes: bits 4:3 of ACCEL_CONFIG / GYRO_CONFIG. */
  const BITS_FS_2G: byte := 0x00
  const BITS_FS_4G: byte := 0x08
  const BITS_FS_8G: byte := 0x10
  const BITS_FS_16G: byte := 0x18
  const BITS_FS_250DPS: byte := 0x00
  const BITS_FS_500DPS: byte := 0x08
  const BITS_FS_1000DPS: byte := 0x10
  const BITS_FS_2000DPS: byte := 0x18

  /** The answers `probe` expects from WHOAMI and from the magnetometer's WIA. */
  const MPU9250_WHOAMI: byte := 0x71
  const AK8963_DEVICE_ID: byte := 0x48

  /** `addr | READ_FLAG`: bit 7 set, the low seven bits kept. */
  function WithReadFlag(a: byte): (r: byte)
    ensures r >= READ_FLAG && r % 0x80 == a % 0x80
    ensures a >= READ_FLAG ==> r == a
  {
    if a < READ_FLAG then a + READ_FLAG else a
  }

  /** The accelerometer's full-scale range in g for a valid code: 2 for the
      lowest, doubling with each step of the two-bit field. */
  function AccRangeG(scale: byte): (g: nat)
    requires scale in {BITS_FS_2G, BITS_FS_4G, BITS_FS_8G, BITS_FS_16G}
    decreases scale
  {
    if scale == BITS_FS_2G then 2 else 2 * AccRangeG(scale - 8)
  }

  /** `set_acc_scale`'s table: the LSB-per-g divider of a scale code. Each
      valid code's divider times its range in g is 32768, so full scale is the
      top of the signed 16-bit range; any other code has no divider. */
  function AccDivider(scale: byte): (r: Option<nat>)
    ensures r.Some? <==> scale in {BITS_FS_2G, BITS_FS_4G, BITS_FS_8G, BITS_FS_16G}
    ensures r.Some? ==> r.value * AccRangeG(scale) == 0x8000
  {
    if scale == BITS_FS_2G then Some(16384)
    else if scale == BITS_FS_4G then Some(8192)
    else if scale == BITS_FS_8G then Some(4096)
    else if scale == BITS_FS_16G then Some(2048)
    else None
  }

  /** `set_gyro_scale`'s table: LSB per degree per second. The values are
      the source's decimal constants; float rounding is not modelled. */
  function GyroDivider(scale: byte): (r: Option<real>)
    ensures r.Some? <==> scale in {BITS_FS_250DPS, BITS_FS_500DPS, BITS_FS_1000DPS, BITS_FS_2000DPS}
  {
    if scale == BITS_FS_250DPS then Some(131.0)
    else if scale == BITS_FS_500DPS then Some(65.5)
    else if scale == BITS_FS_1000DPS then Some(32.8)
    else if scale == BITS_FS_2000DPS then Some(16.4)
    else None
  }

  /** One row of `MPU_Init_Data`: column 0 the value, column 1 the register. */
  datatype InitEntry = InitEntry(value: byte, register: byte)

  /** `MPU_InitRegNum` */
  const MPU_InitRegNum: nat := 16

  /** `MPU_Init_Data`, in table order. */
  const InitTable: seq<InitEntry> := [
    InitEntry(0x01, MPUREG_PWR_MGMT_1),
    InitEntry(0x00, MPUREG_PWR_MGMT_2),
    InitEntry(0x00, MPUREG_CONFIG),
    InitEntry(0x18, MPUREG_GYRO_CONFIG),
    InitEntry(3 * 8, MPUREG_ACCEL_CONFIG),
    InitEntry(0x08, MPUREG_ACCEL_CONFIG_2),
    InitEntry(0x30, MPUREG_INT_PIN_CFG),
    InitEntry(0x20, MPUREG_USER_CTRL),
    InitEntry(0x0D, MPUREG_I2C_MST_CTRL),
    InitEntry(AK8963_I2C_ADDR, MPUREG_I2C_SLV0_ADDR),
    InitEntry(AK8963_CNTL2, MPUREG_I2C_SLV0_REG),
    InitEntry(0x01, MPUREG_I2C_SLV0_DO),
    InitEntry(0x81, MPUREG_I2C_SLV0_CTRL),
    InitEntry(AK8963_CNTL1, MPUREG_I2C_SLV0_REG),
    InitEntry(0x12, MPUREG_I2C_SLV0_DO),
    InitEntry(0x81, MPUREG_I2C_SLV0_CTRL)
  ]

  /** The two-byte frame `WriteReg(register, value)` sends. */
  function WriteFrame(register: byte, value: byte): seq<byte>
  {
    [register, value]
  }

  /** The frames a walk over table rows sends: one write per row, in order,
      each writing column 0 to the register in column 1. */
  function TableWrites(t: seq<InitEntry>): (r: seq<seq<byte>>)
    ensures |r| == |t|
    ensures forall i :: 0 <= i < |t| ==> r[i] == WriteFrame(t[i].register, t[i].value)
  {
    seq(|t|, i requires 0 <= i < |t| => WriteFrame(t[i].register, t[i].value))
  }

  /** The guard of `ReadRegs` as compiled: `Bytes + 1` is computed in
      `uint32_t`, so for the largest count it wraps to 0 and passes. */
  function ReadRegsGuardAsWritten(bytes: uint32): (ok: bool)
    ensures ok <==> bytes + 1 < DATA_LENGTH || bytes == 0xFFFF_FFFF
  {
    (bytes + 1) % 0x1_0000_0000 < DATA_LENGTH
  }

  /** The count the wrapped guard lets through asks for an exchange, and a
      copy loop, far longer than the DATA_LENGTH-byte `tx` and `rx`. */
  lemma ReadRegsGuardOverrun(bytes: uint32)
    requires bytes == 0xFFFF_FFFF
    ensures ReadRegsGuardAsWritten(bytes) && bytes + 1 > DATA_LENGTH
  {
  }

  /** The guard as intended, written without the wrap: the exchange of
      n + 1 bytes fits the transfer buffers. */
  function ReadRegsGuard(bytes: uint32): (ok: bool)
    ensures ok <==> bytes + 1 < DATA_LENGTH
    ensures ok ==> ReadRegsGuardAsWritten(bytes)
  {
    bytes < DATA_LENGTH - 1
  }

  /** The frame `ReadRegs(addr, _, n)` sends: the address with the read flag,
      then n zero bytes that clock the answer out. */
  function ReadFrame(addr: byte, n: nat): (r: seq<byte>)
    ensures |r| == n + 1 && r[0] == WithReadFlag(addr)
    ensures forall i :: 1 <= i <= n ==> r[i] == 0
  {
    [WithReadFlag(addr)] + Zeros(n)
  }

  /** `((int16_t)hi << 8) | lo` stored in an int16_t: the bit pattern is
      hi*256+lo (the OR of disjoint bit ranges is their sum), reinterpreted
      as two's complement, so the sign is the top bit of the high byte. */
  function WordOf(hi: byte, lo: byte): (w: int16)
    ensures FromInt16(w) == hi * 0x100 + lo
    ensures w < 0 <==> hi >= 0x80
  {
    ToInt16(hi * 0x100 + lo)
  }

  /** Both bytes can be read back from the word. */
  lemma WordBytes(hi: byte, lo: byte)
    ensures FromInt16(WordOf(hi, lo)) / 0x100 == hi
    ensures FromInt16(WordOf(hi, lo)) % 0x100 == lo
  {
  }

  /** The bytes of a word, high byte first. */
  function WordBytesOf(w: int16): (hl: (byte, byte))
    ensures WordOf(hl.0, hl.1) == w
  {
    var u := FromInt16(w);
    (u / 0x100, u % 0x100)
  }

  /** The words of a byte string stored high byte first (accelerometer,
      temperature and gyroscope registers). */
  function BigEndianWords(r: seq<byte>): (ws: seq<int16>)
    requires |r| % 2 == 0
    ensures |ws| == |r| / 2
    ensures forall j :: 0 <= j < |ws| ==> ws[j] == WordOf(r[2 * j], r[2 * j + 1])
    decreases |r|
  {
    if r == [] then [] else [WordOf(r[0], r[1])] + BigEndianWords(r[2..])
  }

  /** The words of a byte string stored low byte first (magnetometer
      registers). */
  function LittleEndianWords(r: seq<byte>): (ws: seq<int16>)
    requires |r| % 2 == 0
    ensures |ws| == |r| / 2
    ensures forall j :: 0 <= j < |ws| ==> ws[j] == WordOf(r[2 * j + 1], r[2 * j])
    decreases |r|
  {
    if r == [] then [] else [WordOf(r[1], r[0])] + LittleEndianWords(r[2..])
  }

  /** The bytes of words laid out high byte first, and low byte first. */
  function BigEndianBytes(ws: seq<int16>): (r: seq<byte>)
    ensures |r| == 2 * |ws|
    ensures forall j :: 0 <= j < |ws| ==> WordOf(r[2 * j], r[2 * j + 1]) == ws[j]
  {
    if ws == [] then [] else [WordBytesOf(ws[0]).0, WordBytesOf(ws[0]).1] + BigEndianBytes(ws[1..])
  }

  function LittleEndianBytes(ws: seq<int16>): (r: seq<byte>)
    ensures |r| == 2 * |ws|
    ensures forall j :: 0 <= j < |ws| ==> WordOf(r[2 * j + 1], r[2 * j]) == ws[j]
  {
    if ws == [] then [] else [WordBytesOf(ws[0]).1, WordBytesOf(ws[0]).0] + LittleEndianBytes(ws[1..])
  }

  /** Splitting into words and laying them out again gives back the bytes. */
  lemma {:induction false} BigEndianBytesOfWords(r: seq<byte>)
    requires |r| % 2 == 0
    ensures BigEndianBytes(BigEndianWords(r)) == r
    decreases |r|
  {
    if r != [] {
      WordBytes(r[0], r[1]);
      BigEndianBytesOfWords(r[2..]);
      assert BigEndianWords(r)[1..] == BigEndianWords(r[2..]);
      assert r == [r[0], r[1]] + r[2..];
    }
  }

  lemma {:induction false} LittleEndianBytesOfWords(r: seq<byte>)
    requires |r| % 2 == 0
    ensures LittleEndianBytes(LittleEndianWords(r)) == r
    decreases |r|
  {
    if r != [] {
      WordBytes(r[1], r[0]);
      LittleEndianBytesOfWords(r[2..]);
      assert LittleEndianWords(r)[1..] == LittleEndianWords(r[2..]);
      assert r == [r[0], r[1]] + r[2..];
    }
  }

  /** And laying words out and splitting the bytes gives back the words. */
  lemma {:induction false} BigEndianWordsOfBytes(ws: seq<int16>)
    ensures BigEndianWords(BigEndianBytes(ws)) == ws
  {
    if ws != [] {
      var r := BigEndianBytes(ws);
      assert r[2..] == BigEndianBytes(ws[1..]);
      BigEndianWordsOfBytes(ws[1..]);
    }
  }

  lemma {:induction false} LittleEndianWordsOfBytes(ws: seq<int16>)
    ensures LittleEndianWords(LittleEndianBytes(ws)) == ws
  {
    if ws != [] {
      var r := LittleEndianBytes(ws);
      assert r[2..] == LittleEndianBytes(ws[1..]);
      LittleEndianWordsOfBytes(ws[1..]);
    }
  }

  /** The integer content of one `update`: three accelerometer words, the
      temperature word, three gyroscope words, three magnetometer words. */
  datatype RawSample = RawSample(accel: seq<int16>, temperature: int16, gyro: seq<int16>, mag: seq<int16>)
  {
    predicate Valid() { |accel| == 3 && |gyro| == 3 && |mag| == 3 }
  }

  /** `update`'s 21-byte burst from ACCEL_XOUT_H: seven high-byte-first words
      (accelerometer, temperature, gyroscope) in bytes 0..13, three
      low-byte-first magnetometer words in bytes 14..19, and the
      magnetometer's status byte, which is read but not used. */
  const BurstLength: nat := 21

  function DecodeBurst(r: seq<byte>): (s: RawSample)
    requires |r| == BurstLength
    ensures s.Valid()
  {
    var front := BigEndianWords(r[..14]);
    RawSample(front[..3], front[3], front[4..], LittleEndianWords(r[14..20]))
  }

  /** The burst a sensor would send for a sample and a status byte. */
  function EncodeBurst(s: RawSample, st2: byte): (r: seq<byte>)
    requires s.Valid()
    ensures |r| == BurstLength
  {
    BigEndianBytes(s.accel + [s.temperature] + s.gyro) + LittleEndianBytes(s.mag) + [st2]
  }

  /** The register offsets: accelerometer words at bytes 0, 2, 4, temperature
      at 6 and gyroscope at 8, 10, 12, high byte first; magnetometer words at
      14, 16, 18, low byte first. */
  lemma BurstOffsets(r: seq<byte>)
    requires |r| == BurstLength
    ensures forall j :: 0 <= j < 3 ==> DecodeBurst(r).accel[j] == WordOf(r[2 * j], r[2 * j + 1])
    ensures DecodeBurst(r).temperature == WordOf(r[6], r[7])
    ensures forall j :: 0 <= j < 3 ==> DecodeBurst(r).gyro[j] == WordOf(r[2 * j + 8], r[2 * j + 9])
    ensures forall j :: 0 <= j < 3 ==> DecodeBurst(r).mag[j] == WordOf(r[2 * j + 15], r[2 * j + 14])
  {
    var front := BigEndianWords(r[..14]);
    var back := LittleEndianWords(r[14..20]);
    assert forall j :: 0 <= j < 7 ==> front[j] == WordOf(r[2 * j], r[2 * j + 1]);
    assert forall j :: 0 <= j < 3 ==> back[j] == WordOf(r[2 * j + 15], r[2 * j + 14]);
  }

  /** A sample whose words sit at the burst's offsets is the decoded burst. */
  lemma SampleOfWords(r: seq<byte>, s: RawSample)
    requires |r| == BurstLength
    requires |s.accel| == 3 && |s.gyro| == 3 && |s.mag| == 3
    requires forall j :: 0 <= j < 3 ==> s.accel[j] == WordOf(r[2 * j], r[2 * j + 1])
    requires s.temperature == WordOf(r[6], r[7])
    requires forall j :: 0 <= j < 3 ==> s.gyro[j] == WordOf(r[2 * j + 8], r[2 * j + 9])
    requires forall j :: 0 <= j < 3 ==> s.mag[j] == WordOf(r[2 * j + 15], r[2 * j + 14])
    ensures s == DecodeBurst(r)
  {
    BurstOffsets(r);
  }

  /** Byte order as stated: decoding a burst and laying the words back out
      high-byte-first (low-byte-first for the magnetometer) gives back the
      burst, so no byte is lost, duplicated or swapped. */
  lemma BurstLayoutExact(r: seq<byte>)
    requires |r| == BurstLength
    ensures EncodeBurst(DecodeBurst(r), r[20]) == r
  {
    BurstFrontLayout(r);
    BurstBackLayout(r);
    EncodeBurstParts(DecodeBurst(r), r[20], r[..14], r[14..20]);
    BurstParts(r);
  }

  /** A burst is its front words, its magnetometer words and the status byte. */
  lemma EncodeBurstParts(s: RawSample, st2: byte, front: seq<byte>, back: seq<byte>)
    requires s.Valid()
    requires BigEndianBytes(s.accel + [s.temperature] + s.gyro) == front
    requires LittleEndianBytes(s.mag) == back
    ensures EncodeBurst(s, st2) == front + back + [st2]
  {
  }

  lemma BurstParts(r: seq<byte>)
    requires |r| == BurstLength
    ensures r[..14] + r[14..20] + [r[20]] == r
  {
  }

  /** The seven high-byte-first words lay out as burst bytes 0..13. */
  lemma BurstFrontLayout(r: seq<byte>)
    requires |r| == BurstLength
    ensures var s := DecodeBurst(r); BigEndianBytes(s.accel + [s.temperature] + s.gyro) == r[..14]
  {
    var s := DecodeBurst(r);
    var front := BigEndianWords(r[..14]);
    assert s.accel + [s.temperature] + s.gyro == front by {
      assert front[..3] + [front[3]] + front[4..] == front;
    }
    BigEndianBytesOfWords(r[..14]);
  }

  /** The three low-byte-first words lay out as burst bytes 14..19. */
  lemma BurstBackLayout(r: seq<byte>)
    requires |r| == BurstLength
    ensures LittleEndianBytes(DecodeBurst(r).mag) == r[14..20]
  {
    LittleEndianBytesOfWords(r[14..20]);
  }

  /** And every sample is decoded from the burst that encodes it. */
  lemma BurstDecodesSample(s: RawSample, st2: byte)
    requires s.Valid()
    ensures DecodeBurst(EncodeBurst(s, st2)) == s
  {
    var ws := s.accel + [s.temperature] + s.gyro;
    var r := EncodeBurst(s, st2);
    assert r[..14] == BigEndianBytes(ws);
    assert r[14..20] == LittleEndianBytes(s.mag);
    BigEndianWordsOfBytes(ws);
    LittleEndianWordsOfBytes(s.mag);
    assert ws[..3] == s.accel && ws[4..] == s.gyro;
  }

  /** The loops of `update` that fill `bit_data` from the burst. The
      temperature word is read at `i * 2` with i = 3, where the accelerometer
      loop leaves i. */
  method AssembleWords(response: array<byte>) returns (s: RawSample)
    requires response.Length == BurstLength
    ensures s == DecodeBurst(response[..])
  {
    var bitData := new int16[3];
    var i := 0;
    while i < 3
      invariant 0 <= i <= 3
      invariant forall j :: 0 <= j < i ==> bitData[j] == WordOf(response[2 * j], response[2 * j + 1])
    {
      bitData[i] := WordOf(response[i * 2], response[i * 2 + 1]);
      i := i + 1;
    }
    var accel := bitData[..];
    var temperature := WordOf(response[i * 2], response[i * 2 + 1]);

    i := 4;
    while i < 7
      invariant 4 <= i <= 7
      invariant forall j :: 0 <= j < i - 4 ==> bitData[j] == WordOf(response[2 * j + 8], response[2 * j + 9])
    {
      bitData[i - 4] := WordOf(response[i * 2], response[i * 2 + 1]);
      i := i + 1;
    }
    var gyro := bitData[..];

    i := 7;
    while i < 10
      invariant 7 <= i <= 10
      invariant forall j :: 0 <= j < i - 7 ==> bitData[j] == WordOf(response[2 * j + 15], response[2 * j + 14])
    {
      bitData[i - 7] := WordOf(response[i * 2 + 1], response[i * 2]);
      i := i + 1;
    }
    var mag := bitData[..];
    s := RawSample(accel, temperature, gyro, mag);
    SampleOfWords(response[..], s);
  }

  /** The bus traffic of `probe`, `calib_mag` and the register-setup part of
      `update`, appended to the log `s` of earlier frames. */
  function ProbeLog(s: seq<seq<byte>>): seq<seq<byte>>
  {
    s
    + [WriteFrame(WithReadFlag(WithReadFlag(MPUREG_WHOAMI)), 0)]
    + [WriteFrame(MPUREG_USER_CTRL, 0x20)]
    + [WriteFrame(MPUREG_I2C_MST_CTRL, 0x0D)]
    + [WriteFrame(MPUREG_I2C_SLV0_ADDR, WithReadFlag(AK8963_I2C_ADDR))]
    + [WriteFrame(MPUREG_I2C_SLV0_REG, AK8963_WIA)]
    + [WriteFrame(MPUREG_I2C_SLV0_CTRL, 0x81)]
    + [WriteFrame(WithReadFlag(MPUREG_EXT_SENS_DATA_00), 0)]
  }

  function CalibMagLog(s: seq<seq<byte>>): seq<seq<byte>>
  {
    s
    + [WriteFrame(MPUREG_I2C_SLV0_ADDR, WithReadFlag(AK8963_I2C_ADDR))]
    + [WriteFrame(MPUREG_I2C_SLV0_REG, AK8963_ASAX)]
    + [WriteFrame(MPUREG_I2C_SLV0_CTRL, 0x83)]
    + [ReadFrame(MPUREG_EXT_SENS_DATA_00, 3)]
  }

  function UpdateLog(s: seq<seq<byte>>): seq<seq<byte>>
  {
    s
    + [WriteFrame(MPUREG_I2C_SLV0_ADDR, WithReadFlag(AK8963_I2C_ADDR))]
    + [WriteFrame(MPUREG_I2C_SLV0_REG, AK8963_HXL)]
    + [WriteFrame(MPUREG_I2C_SLV0_CTRL, 0x87)]
    + [ReadFrame(MPUREG_ACCEL_XOUT_H, BurstLength)]
  }

  /** The traffic of `initialize`: the two scale writes, the table walk and
      `calib_mag`. */
  function InitializeLog(s: seq<seq<byte>>): seq<seq<byte>>
  {
    CalibMagLog(s
      + [WriteFrame(MPUREG_ACCEL_CONFIG, BITS_FS_4G)] + [WriteFrame(MPUREG_GYRO_CONFIG, BITS_FS_500DPS)]
      + TableWrites(InitTable))
  }

  /** The same traffic with the scale writes after the table walk. */
  function ScalesLastLog(s: seq<seq<byte>>): seq<seq<byte>>
  {
    CalibMagLog(s + TableWrites(InitTable)
      + [WriteFrame(MPUREG_ACCEL_CONFIG, BITS_FS_4G)] + [WriteFrame(MPUREG_GYRO_CONFIG, BITS_FS_500DPS)])
  }

  /** The value last written to a register in a bus log. Only two-byte frames
      to an address without the read flag are writes. */
  function LastWrite(log: seq<seq<byte>>, register: byte): Option<byte>
    decreases |log|
  {
    if log == [] then None
    else
      var f := log[|log| - 1];
      if |f| == 2 && f[0] == register && register < READ_FLAG then Some(f[1])
      else LastWrite(log[..|log| - 1], register)
  }

  /** The chip's configured ranges are the ones the dividers are for: the
      last codes written to ACCEL_CONFIG and GYRO_CONFIG map to them. */
  predicate ScalesMatch(log: seq<seq<byte>>, accDivider: int, gyroDivider: real)
  {
    && LastWrite(log, MPUREG_ACCEL_CONFIG).Some?
    && AccDivider(LastWrite(log, MPUREG_ACCEL_CONFIG).value) == Some(accDivider)
    && LastWrite(log, MPUREG_GYRO_CONFIG).Some?
    && GyroDivider(LastWrite(log, MPUREG_GYRO_CONFIG).value) == Some(gyroDivider)
  }

  lemma LastWriteOther(log: seq<seq<byte>>, f: seq<byte>, register: byte)
    requires !(|f| == 2 && f[0] == register)
    ensures LastWrite(log + [f], register) == LastWrite(log, register)
  {
    assert (log + [f])[..|log|] == log;
  }

  lemma LastWriteHit(log: seq<seq<byte>>, register: byte, v: byte)
    requires register < READ_FLAG
    ensures LastWrite(log + [WriteFrame(register, v)], register) == Some(v)
  {
  }

  /** The last write to a register in a table walk comes from the last row
      naming that register. */
  lemma {:induction false} LastWriteTable(a: seq<seq<byte>>, t: seq<InitEntry>, j: nat, register: byte)
    requires register < READ_FLAG
    requires j < |t| && t[j].register == register
    requires forall i :: j < i < |t| ==> t[i].register != register
    ensures LastWrite(a + TableWrites(t), register) == Some(t[j].value)
    decreases |t|
  {
    var n := |t| - 1;
    assert TableWrites(t) == TableWrites(t[..n]) + [WriteFrame(t[n].register, t[n].value)];
    assert a + TableWrites(t) == (a + TableWrites(t[..n])) + [WriteFrame(t[n].register, t[n].value)];
    if j == n {
      LastWriteHit(a + TableWrites(t[..n]), register, t[n].value);
    } else {
      LastWriteOther(a + TableWrites(t[..n]), WriteFrame(t[n].register, t[n].value), register);
      LastWriteTable(a, t[..n], j, register);
    }
  }

  /** `calib_mag` writes neither scale register. */
  lemma CalibMagKeepsScales(s: seq<seq<byte>>, register: byte)
    requires register == MPUREG_ACCEL_CONFIG || register == MPUREG_GYRO_CONFIG
    ensures LastWrite(CalibMagLog(s), register) == LastWrite(s, register)
  {
    var f1 := WriteFrame(MPUREG_I2C_SLV0_ADDR, WithReadFlag(AK8963_I2C_ADDR));
    var f2 := WriteFrame(MPUREG_I2C_SLV0_REG, AK8963_ASAX);
    var f3 := WriteFrame(MPUREG_I2C_SLV0_CTRL, 0x83);
    LastWriteOther(s + [f1] + [f2] + [f3], ReadFrame(MPUREG_EXT_SENS_DATA_00, 3), register);
    LastWriteOther(s + [f1] + [f2], f3, register);
    LastWriteOther(s + [f1], f2, register);
    LastWriteOther(s, f1, register);
  }

  /** As written, `initialize` leaves the chip at +-16 g and +-2000 dps (the
      fourth and fifth rows of its table, written after the scale calls) while the
      dividers it keeps are those of +-4 g and +-500 dps. */
  lemma InitializeScalesMismatch(s: seq<seq<byte>>)
    ensures LastWrite(InitializeLog(s), MPUREG_ACCEL_CONFIG) == Some(BITS_FS_16G)
    ensures LastWrite(InitializeLog(s), MPUREG_GYRO_CONFIG) == Some(BITS_FS_2000DPS)
    ensures !ScalesMatch(InitializeLog(s), 8192, 65.5)
  {
    var a := s + [WriteFrame(MPUREG_ACCEL_CONFIG, BITS_FS_4G)] + [WriteFrame(MPUREG_GYRO_CONFIG, BITS_FS_500DPS)];
    CalibMagKeepsScales(a + TableWrites(InitTable), MPUREG_ACCEL_CONFIG);
    CalibMagKeepsScales(a + TableWrites(InitTable), MPUREG_GYRO_CONFIG);
    LastWriteTable(a, InitTable, 4, MPUREG_ACCEL_CONFIG);
    LastWriteTable(a, InitTable, 3, MPUREG_GYRO_CONFIG);
  }

  /** With the scale writes after the table walk, the chip's ranges and the
      dividers agree. */
  lemma ScalesLastMatch(s: seq<seq<byte>>)
    ensures ScalesMatch(ScalesLastLog(s), 8192, 65.5)
  {
    var a := s + TableWrites(InitTable);
    var acc := WriteFrame(MPUREG_ACCEL_CONFIG, BITS_FS_4G);
    var gyro := WriteFrame(MPUREG_GYRO_CONFIG, BITS_FS_500DPS);
    CalibMagKeepsScales(a + [acc] + [gyro], MPUREG_ACCEL_CONFIG);
    CalibMagKeepsScales(a + [acc] + [gyro], MPUREG_GYRO_CONFIG);
    LastWriteOther(a + [acc], gyro, MPUREG_ACCEL_CONFIG);
    LastWriteHit(a, MPUREG_ACCEL_CONFIG, BITS_FS_4G);
    LastWriteHit(a + [acc], MPUREG_GYRO_CONFIG, BITS_FS_500DPS);
  }

  class MPU9250 {
    /** `spi_dev_` */
    const spi: SpiDev
    /** `acc_divider`, `gyro_divider` */
    var accDivider: int
    var gyroDivider: real
    /** The three sensitivity-adjustment bytes `calib_mag` reads (the float
        factors computed from them are not modelled). */
    var magAsa: seq<byte>
    /** The raw words of the last `update` (in place of ax_ .. mz_ and
        temperature). */
    var sample: RawSample

    constructor (spi: SpiDev)
      ensures this.spi == spi
    {
      this.spi := spi;
      accDivider, gyroDivider, magAsa := 0, 0.0, [];
      sample := RawSample([], 0, [], []);
    }

    /** `WriteReg`: a two-byte exchange; returns the second byte clocked back. */
    method WriteReg(writeAddr: byte, writeData: byte) returns (r: byte)
      modifies spi
      ensures spi.sent == old(spi.sent) + [WriteFrame(writeAddr, writeData)]
      ensures r == spi.Answer(|old(spi.sent)|, 2)[1]
    {
      var rx := spi.Transfer([writeAddr, writeData]);
      r := rx[1];
    }

    /** `ReadReg(a)` is exactly `WriteReg(a | READ_FLAG, 0)`. */
    method ReadReg(readAddr: byte) returns (r: byte)
      modifies spi
      ensures spi.sent == old(spi.sent) + [WriteFrame(WithReadFlag(readAddr), 0)]
      ensures r == spi.Answer(|old(spi.sent)|, 2)[1]
    {
      r := WriteReg(WithReadFlag(readAddr), 0x00);
    }

    /** `ReadRegs(addr, buf, n)`: one (n+1)-byte exchange; the first reply byte
        is dropped and the next n land in buf[0..n]. Nothing at or beyond n is
        written. The count must pass the size guard without wrap-around
        (`ReadRegsGuard`), and the caller's buffer must hold n bytes. */
    method ReadRegs(readAddr: byte, readBuf: array<byte>, bytes: uint32)
      requires ReadRegsGuard(bytes)
      requires bytes <= readBuf.Length
      modifies spi, readBuf
      ensures spi.sent == old(spi.sent) + [ReadFrame(readAddr, bytes)]
      ensures readBuf[..bytes] == spi.Answer(|old(spi.sent)|, bytes + 1)[1..]
      ensures readBuf[bytes..] == old(readBuf[bytes..])
    {
      var tx := [WithReadFlag(readAddr)] + Zeros(DATA_LENGTH - 1);
      assert tx[..bytes + 1] == ReadFrame(readAddr, bytes);
      var rx := spi.Transfer(tx[..bytes + 1]);
      for i := 0 to bytes
        invariant spi.sent == old(spi.sent) + [ReadFrame(readAddr, bytes)]
        invariant readBuf[..i] == rx[1..i + 1]
        invariant readBuf[i..] == old(readBuf[i..])
      {
        readBuf[i] := rx[i + 1];
        assert readBuf[i + 1..] == old(readBuf[i + 1..]) by {
          assert old(readBuf[i..])[1..] == old(readBuf[i + 1..]);
        }
      }
    }

    /** `probe`: true iff WHOAMI answers 0x71 and the magnetometer's WIA
        register, fetched through the I2C master, answers 0x48. */
    method Probe() returns (ok: bool)
      modifies spi
      ensures spi.sent == ProbeLog(old(spi.sent))
      ensures ok <==> (spi.Answer(|old(spi.sent)|, 2)[1] == MPU9250_WHOAMI
                       && spi.Answer(|old(spi.sent)| + 6, 2)[1] == AK8963_DEVICE_ID)
    {
      var responseXG := ReadReg(WithReadFlag(MPUREG_WHOAMI));
      var _ := WriteReg(MPUREG_USER_CTRL, 0x20);
      var _ := WriteReg(MPUREG_I2C_MST_CTRL, 0x0D);
      var _ := WriteReg(MPUREG_I2C_SLV0_ADDR, WithReadFlag(AK8963_I2C_ADDR));
      var _ := WriteReg(MPUREG_I2C_SLV0_REG, AK8963_WIA);
      var _ := WriteReg(MPUREG_I2C_SLV0_CTRL, 0x81);
      var responseM := ReadReg(MPUREG_EXT_SENS_DATA_00);
      ok := responseXG == MPU9250_WHOAMI && responseM == AK8963_DEVICE_ID;
    }

    /** `set_acc_scale`: writes the code to ACCEL_CONFIG and sets the divider
        of a known code; an unknown code leaves the divider unchanged. */
    method SetAccScale(scale: byte)
      modifies this, spi
      ensures spi.sent == old(spi.sent) + [WriteFrame(MPUREG_ACCEL_CONFIG, scale)]
      ensures accDivider == (if AccDivider(scale).Some? then AccDivider(scale).value else old(accDivider))
      ensures gyroDivider == old(gyroDivider) && magAsa == old(magAsa) && sample == old(sample)
    {
      var _ := WriteReg(MPUREG_ACCEL_CONFIG, scale);
      if scale == BITS_FS_2G {
        accDivider := 16384;
      } else if scale == BITS_FS_4G {
        accDivider := 8192;
      } else if scale == BITS_FS_8G {
        accDivider := 4096;
      } else if scale == BITS_FS_16G {
        accDivider := 2048;
      }
    }

    /** `set_gyro_scale`: the same for GYRO_CONFIG and the gyroscope divider. */
    method SetGyroScale(scale: byte)
      modifies this, spi
      ensures spi.sent == old(spi.sent) + [WriteFrame(MPUREG_GYRO_CONFIG, scale)]
      ensures gyroDivider == (if GyroDivider(scale).Some? then GyroDivider(scale).value else old(gyroDivider))
      ensures accDivider == old(accDivider) && magAsa == old(magAsa) && sample == old(sample)
    {
      var _ := WriteReg(MPUREG_GYRO_CONFIG, scale);
      if scale == BITS_FS_250DPS {
        gyroDivider := 131.0;
      } else if scale == BITS_FS_500DPS {
        gyroDivider := 65.5;
      } else if scale == BITS_FS_1000DPS {
        gyroDivider := 32.8;
      } else if scale == BITS_FS_2000DPS {
        gyroDivider := 16.4;
      }
    }

    /** `calib_mag`: points I2C slave 0 at the AK8963's ASA registers and reads
        the three adjustment bytes back through EXT_SENS_DATA. */
    method CalibMag()
      modifies this, spi
      ensures spi.sent == CalibMagLog(old(spi.sent))
      ensures magAsa == spi.Answer(|old(spi.sent)| + 3, 4)[1..]
      ensures accDivider == old(accDivider) && gyroDivider == old(gyroDivider) && sample == old(sample)
    {
      var _ := WriteReg(MPUREG_I2C_SLV0_ADDR, WithReadFlag(AK8963_I2C_ADDR));
      var _ := WriteReg(MPUREG_I2C_SLV0_REG, AK8963_ASAX);
      var _ := WriteReg(MPUREG_I2C_SLV0_CTRL, 0x83);
      var response := new byte[3];
      ReadRegs(MPUREG_EXT_SENS_DATA_00, response, 3);
      magAsa := response[..];
    }

    /** The table walk of `initialize`: one WriteReg per row, in order. */
    method WriteInitTable()
      modifies spi
      ensures spi.sent == old(spi.sent) + TableWrites(InitTable)
    {
      for i := 0 to MPU_InitRegNum
        invariant spi.sent == old(spi.sent) + TableWrites(InitTable[..i])
      {
        var _ := WriteReg(InitTable[i].register, InitTable[i].value);
        assert InitTable[..i + 1] == InitTable[..i] + [InitTable[i]];
        assert TableWrites(InitTable[..i + 1]) == TableWrites(InitTable[..i]) + [WriteFrame(InitTable[i].register, InitTable[i].value)];
      }
      assert InitTable[..MPU_InitRegNum] == InitTable;
    }

    /** `initialize`: accelerometer to +-4 g, gyroscope to +-500 dps, then
        exactly MPU_InitRegNum register writes in table order, then the
        magnetometer calibration read. */
    method Initialize()
      modifies this, spi
      ensures spi.sent == InitializeLog(old(spi.sent))
      ensures accDivider == 8192 && gyroDivider == 65.5
      ensures magAsa == spi.Answer(|old(spi.sent)| + 2 + MPU_InitRegNum + 3, 4)[1..]
      ensures sample == old(sample)
    {
      SetAccScale(BITS_FS_4G);
      SetGyroScale(BITS_FS_500DPS);
      WriteInitTable();
      CalibMag();
    }

    /** `initialize` with the two scale calls moved after the table walk, so
        that the ranges the chip is left at are the ones the dividers are
        for. The rows the calls override stay in the table. */
    method InitializeScalesLast()
      modifies this, spi
      ensures spi.sent == ScalesLastLog(old(spi.sent))
      ensures ScalesMatch(spi.sent, accDivider, gyroDivider)
      ensures accDivider == 8192 && gyroDivider == 65.5
      ensures magAsa == spi.Answer(|old(spi.sent)| + MPU_InitRegNum + 2 + 3, 4)[1..]
      ensures sample == old(sample)
    {
      ghost var before := spi.sent;
      WriteInitTable();
      SetAccScale(BITS_FS_4G);
      SetGyroScale(BITS_FS_500DPS);
      CalibMag();
      ScalesLastMatch(before);
    }

    /** The bus part of `update`: points I2C slave 0 at the magnetometer's
        data registers, then reads the 21-byte burst from ACCEL_XOUT_H. */
    method ReadBurst() returns (response: array<byte>)
      modifies spi
      ensures fresh(response) && response.Length == BurstLength
      ensures spi.sent == UpdateLog(old(spi.sent))
      ensures response[..] == spi.Answer(|old(spi.sent)| + 3, BurstLength + 1)[1..]
    {
      var _ := WriteReg(MPUREG_I2C_SLV0_ADDR, WithReadFlag(AK8963_I2C_ADDR));
      var _ := WriteReg(MPUREG_I2C_SLV0_REG, AK8963_HXL);
      var _ := WriteReg(MPUREG_I2C_SLV0_CTRL, 0x87);
      response := new byte[BurstLength];
      ReadRegs(MPUREG_ACCEL_XOUT_H, response, BurstLength);
      assert response[..] == response[..BurstLength];
    }

    /** `update` (integer part): sets up the magnetometer read, reads the
        21-byte burst from ACCEL_XOUT_H and assembles its words. */
    method Update()
      modifies this, spi
      ensures spi.sent == UpdateLog(old(spi.sent))
      ensures sample == DecodeBurst(spi.Answer(|old(spi.sent)| + 3, BurstLength + 1)[1..])
      ensures accDivider == old(accDivider) && gyroDivider == old(gyroDivider) && magAsa == old(magAsa)
    {
      var response := ReadBurst();
      sample := AssembleWords(response);
    }
  }

  /** `probe` flags the WHOAMI address itself before ReadReg flags it again;
      the flag is idempotent, so the frame is the ordinary one-byte read of
      WHOAMI. */
  lemma ProbeReadsWhoami(s: seq<seq<byte>>)
    ensures |ProbeLog(s)| == |s| + 7
    ensures ProbeLog(s)[|s|] == ReadFrame(MPUREG_WHOAMI, 1)
    ensures ProbeLog(s)[|s| + 6] == ReadFrame(MPUREG_EXT_SENS_DATA_00, 1)
  {
  }

  /** `initialize` performs exactly MPU_InitRegNum table writes, each writing
      a row's value to that row's register. */
  lemma InitTableWrites()
    ensures |TableWrites(InitTable)| == MPU_InitRegNum
    ensures TableWrites(InitTable)[0] == WriteFrame(MPUREG_PWR_MGMT_1, 0x01)
    ensures TableWrites(InitTable)[4] == WriteFrame(MPUREG_ACCEL_CONFIG, BITS_FS_16G)
    ensures TableWrites(InitTable)[MPU_InitRegNum - 1] == WriteFrame(MPUREG_I2C_SLV0_CTRL, 0x81)
  {
  }
}
