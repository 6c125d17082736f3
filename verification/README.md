# Navio2 GNSS (UBX) and MPU9250 driver cores in Dafny

This project models two cores of the Navio2 flight-controller drivers and
proves properties about them.

**The u-blox UBX protocol stack (`Ublox.h`).**
- The inbound side is `UBXScanner`, a byte-at-a-time state machine. It walks
  Sync1, Sync2, Class, ID, Length1, Length2, Payload, CK_A, CK_B and Done
  over a fixed 1024-byte buffer.
- `UBXParser` is a read-only view onto that buffer. Its `calcId` builds the
  16-bit message key `(class << 8) + id`.
- The outbound side is `sendMessage`, `spliceMemory` and `calculateCheckSum`,
  which assemble preamble, header, payload and an 8-bit Fletcher checksum. It
  also covers the packed CFG payloads (CFG-MSG, CFG-RATE, CFG-NAV5 and
  CFG-GNSS) that `enableMsg`, `configureSolutionRate`,
  `configureDynamicsModel` and `configureGnss` send.

**The MPU9250 inertial-sensor driver (`MPU9250.cpp`).**
- Register access over SPI: `WriteReg`, `ReadReg` and `ReadRegs`.
- The `probe` identity check.
- The `initialize` register-table walk.
- The scale-to-divider tables.
- The assembly of signed 16-bit words from the 21-byte register burst read
  by `update`.

## Modules

| File | Contents |
|---|---|
| `bytes.dfy` | The C++ fixed-width integer types as subset types. Little-endian layouts of `uint16_t`/`uint32_t`, and two's-complement reinterpretation of `int8_t`/`int16_t`/`int32_t`. |
| `wrappers.dfy` | `Option`, for decoders that reject their input. |
| `transport.dfy` | The SPI device as a class with a log of transmitted frames and a script of the chip's replies. |
| `ubx_messages.dfy` | Protocol bytes, and the `message_t` key space as a datatype with encode/decode. |
| `ubx_checksum.dfy` | The checksum: running sums, and the closed form. |
| `ubx_frames.dfy` | Frame layout, the frame builder and checksum validation. |
| `ubx_config.dfy` | Packed CFG layouts, each with an encoder and a length-checking decoder. |
| `ubx_scanner.dfy` | The scanner: a value-level `Step` function, and the `UbxScanner` class over a 1024-byte array that is proved to follow it. Also `UbxParser`. |
| `ubx_scanner_proofs.dfy` | Properties of whole byte streams: no overflow, noise rejection, build-then-scan, resynchronisation. |
| `ublox.dfy` | The `Ublox` class: frame assembly into a buffer, the checksum loop, and the configuration commands. |
| `mpu9250.dfy` | The `MPU9250` class and the burst decoding. |

## How the source is modelled

**Where the scanner's behaviour comes from.** The method bodies of the UBX
stack live in `Ublox.cpp`, which is not part of this model. The scanner's
transitions are built from four sources:
- the declared states and fields;
- the constants `kUbxBufferLength`, `kPreambleOffset` and
  `kConfigureMessageSize`;
- the packed structs;
- the u-blox 8 / M8 Receiver Description and Protocol Specification
  (UBX-13003221): section 32.2 for the frame, section 32.4 for the checksum,
  and sections 32.10.18.3, 32.10.27.1, 32.10.19.1 and 32.10.13.1 for the CFG
  payloads.

**Scanner design choices.** The comments in `ubx_scanner.dfy` and
`ublox.dfy` say which choices come from the standard:
- a wrong second preamble byte drops back to Sync1;
- the length is read low byte first;
- a declared length whose frame cannot fit the buffer is abandoned;
- a zero-length payload goes straight to CK_A;
- Done holds the frame until `reset`.

**The SPI transport.** SPIdev is not part of this model. A
transfer is modelled as one full-duplex exchange. Its reply is an input to
the model: `replies[k]` is what the chip sends back during the k-th
transfer. Every transmitted frame is appended to the device's `sent` log, so
each driver method states its bus traffic as the frames it adds to that log.

**Bitwise OR.** `(hi << 8) | lo` and `addr | READ_FLAG` combine disjoint bit
ranges, so the model writes them as `hi * 256 + lo` and "add 0x80 unless bit
7 is already set".

## Model

| member | source | states |
|---|---|---|
| UbxMessages.MakeKey | C++/Navio/Common/Ublox.h:111-127 | `(class << 8) + id` fits in 16 bits. Dividing the key by 256 gives the class back; the remainder is the id. |
| UbxMessages.Key | C++/Navio/Common/Ublox.h:111-127 | The high byte of every `message_t` value is the message's class, and the low byte is its id. |
| UbxMessages.FromKey | C++/Navio/Common/Ublox.h:111-127 | Decoding a key yields a message exactly when that message's key is the key. When no message has the key, decoding yields nothing. |
| UbxMessages.FromKeyOfKey | C++/Navio/Common/Ublox.h:111-127 | Decoding the key of any message gives that message back. |
| UbxMessages.KeyInjective | C++/Navio/Common/Ublox.h:113-126 | The twelve `message_t` values are pairwise distinct. |
| Bytes.U16FromLe | C++/Navio/Common/Ublox.h:213 | Reading a `uint16_t` stored low byte first inverts its packed layout. |
| Bytes.U32FromLe | C++/Navio/Common/Ublox.h:243 | Reading a `uint32_t` stored low byte first inverts its packed layout. |
| Bytes.ToInt8 | C++/Navio/Common/Ublox.h:244 | Reinterpreting a byte as `int8_t` inverts the two's-complement storage of an `int8_t`. |
| Bytes.ToInt32 | C++/Navio/Common/Ublox.h:242 | Reinterpreting a 32-bit pattern as `int32_t` inverts the storage of an `int32_t`. |
| Bytes.ToInt16 | C++/Navio/Common/MPU9250.cpp:272 | Storing a value from 0..65535 in `int16_t` takes it modulo 2^16 into [-32768, 32767]. The result is negative exactly when the value is at least 0x8000. |
| UbxChecksum.EncodeCheckSum | C++/Navio/Common/Ublox.h:216-220 | `CheckSum` is packed as CK_A then CK_B, and reads back. |
| UbxChecksum.Fletcher | C++/Navio/Common/Ublox.h:286-287 | The running sums CK_A += b, CK_B += CK_A (mod 256) over the window, byte by byte. CK_A ends as the plain byte sum of the window modulo 256. |
| UbxChecksum.FletcherClosedForm | C++/Navio/Common/Ublox.h:286-287 | The running sums CK_A += b, CK_B += CK_A (mod 256) give CK_A = the sum of the window and CK_B = each byte weighted by how many prefix sums it enters, both mod 256. |
| UbxChecksum.SingleByteChangeDetected | C++/Navio/Common/Ublox.h:286-287 | Changing any one byte of the window changes CK_A. |
| UbxChecksum.FletcherAppend | C++/Navio/Common/Ublox.h:286-287 | The checksum of a concatenation continues the running sums from the checksum of its first part. |
| UbxFrames.EncodeHeader | C++/Navio/Common/Ublox.h:207-214 | `UbxHeader` packs to 6 bytes with the length low byte first, and decodes back to the same header. |
| UbxFrames.BuildFrame | C++/Navio/Common/Ublox.h:283 | The frame is 6 + n + 2 bytes long and starts with the preamble. Its declared length, class, id and payload read back as given, and its stored checksum matches the recomputed one. |
| UbxFrames.ValidIffBuilt | C++/Navio/Common/Ublox.h:283-287 | A well-framed buffer passes checksum validation if and only if it is the frame built from its own class, id and payload. |
| UbxFrames.CorruptionDetected | C++/Navio/Common/Ublox.h:286-287 | Changing any single byte of a valid frame after the preamble makes validation fail. |
| UbxFrames.AckOutcome | C++/Navio/Common/Ublox.h:290 | Recognising an acknowledgement. A frame is an answer to (cls, id) exactly when it is ACK-ACK or ACK-NAK and its payload is [cls, id]. An ACK-ACK answer is `true` and decodes to `AckAck`; an ACK-NAK answer is `false` and decodes to `AckNak`. |
| UbxConfig.EncodeCfgMsg | C++/Navio/Common/Ublox.h:223-228 | `CfgMsg` packs to 3 bytes and decodes back. |
| UbxConfig.DecodeCfgMsg | C++/Navio/Common/Ublox.h:223-228 | A payload is accepted exactly when it is 3 bytes long. |
| UbxConfig.CfgMsgLayoutExact | C++/Navio/Common/Ublox.h:223-228 | Every accepted payload is the encoding of what it decodes to. |
| UbxConfig.EncodeCfgRate | C++/Navio/Common/Ublox.h:230-235 | `CfgRate` packs to 6 bytes (three little-endian `uint16_t`) and decodes back. |
| UbxConfig.DecodeCfgRate | C++/Navio/Common/Ublox.h:230-235 | A payload is accepted exactly when it is 6 bytes long. |
| UbxConfig.CfgRateLayoutExact | C++/Navio/Common/Ublox.h:230-235 | Every accepted payload is the encoding of what it decodes to. |
| UbxConfig.EncodeCfgNav5 | C++/Navio/Common/Ublox.h:237-258 | `CfgNav5` packs to 36 bytes, in field order with no padding and signed fields in two's complement, and decodes back. |
| UbxConfig.DecodeCfgNav5 | C++/Navio/Common/Ublox.h:237-258 | A payload is accepted exactly when it is 36 bytes long. The reserved arrays keep their lengths, 2 and 5. |
| UbxConfig.CfgNav5LayoutExact | C++/Navio/Common/Ublox.h:237-258 | Every accepted payload is the encoding of what it decodes to. |
| UbxConfig.EncodeCfgGnssBlock | C++/Navio/Common/Ublox.h:260-267 | `CfgGnssBlock` packs to 8 bytes and decodes back. |
| UbxConfig.EncodeCfgGnss | C++/Navio/Common/Ublox.h:269-276 | `CfgGnss` packs to 12 bytes with `numConfigBlocks` = 1, and decodes back. |
| UbxConfig.DecodeCfgGnss | C++/Navio/Common/Ublox.h:269-276 | A payload is accepted exactly when it is 12 bytes long and declares one block. |
| UbxConfig.CfgGnssLayoutExact | C++/Navio/Common/Ublox.h:269-276 | Every accepted payload is the encoding of what it decodes to. |
| UbxScan.Step | C++/Navio/Common/Ublox.h:20-32 | One `update(data)`. The byte is appended to the buffer, ignored, or resets the scanner. A frame completes only from CK_B, recording the stored length, and Done holds the frame unchanged until `reset`. |
| UbxScan.StepInv | C++/Navio/Common/Ublox.h:41-48 | Whatever the byte, one `update` keeps the scanner invariant. The write position stays within the buffer, and in Done the buffer holds a well-framed message of the recorded length. |
| UbxScan.UbxScanner.Reset | C++/Navio/Common/Ublox.h:40 | From any state, `reset` leaves Sync1 with position, payload countdown and message length zero. |
| UbxScan.UbxScanner.Store | C++/Navio/Common/Ublox.h:44-46 | Writing at `position_` appends the byte to the stored prefix and advances the cursor. |
| UbxScan.UbxScanner.Update | C++/Navio/Common/Ublox.h:20-48 | One call on the array-backed scanner does exactly the transition `Step` of its state and the byte, and keeps the invariant. It returns the new state. |
| UbxScan.UbxScanner.GetPosition | C++/Navio/Common/Ublox.h:303-306 | The write cursor never exceeds 1024. |
| UbxScan.UbxScanner.GetMessageLength | C++/Navio/Common/Ublox.h:298-301 | The message length is 0 until a frame completes. After that it is the whole frame's length: header, declared payload and checksum. |
| UbxScan.UbxParser.CalcId | C++/Navio/Common/Ublox.h:56 | The key is built from buffer offsets 2 (high byte) and 3 (low byte). On a completed frame these are the frame's class and id. |
| UbxScan.UbxParser.GetLength | C++/Navio/Common/Ublox.h:313-316 | On a completed frame, the parser's length is the length of the stored frame. |
| UbxScanProofs.StepsInv | C++/Navio/Common/Ublox.h:10 | After any sequence of bytes, the invariant holds and the buffer holds at most 1024 bytes. |
| UbxScanProofs.StepAdvances | C++/Navio/Common/Ublox.h:20-32 | States advance only in declared order, and the only way back is to Sync1. In Sync1 a byte other than 0xB5 changes nothing. In Sync2 a byte other than 0x62 resets. |
| UbxScanProofs.NoiseIgnored | C++/Navio/Common/Ublox.h:80 | Noise without 0xB5 leaves a reset scanner untouched. |
| UbxScanProofs.NoPreambleNoFrame | C++/Navio/Common/Ublox.h:80-81 | A stream in which 0xB5 0x62 never occurs never gets past preamble matching, so it never reaches Done. |
| UbxScanProofs.FramePrefix | C++/Navio/Common/Ublox.h:20-32 | Prefix by prefix, a built frame drives the scanner through the expected states. The payload countdown is the little-endian declared length and consumes exactly that many bytes. |
| UbxScanProofs.ScanBuiltFrame | C++/Navio/Common/Ublox.h:283 | Build then scan: a built frame fed into a reset scanner reaches Done only at its last byte, holding the whole frame. Class, id, length and payload read back, and the stored checksum validates. |
| UbxScanProofs.QuietNoiseIgnored | C++/Navio/Common/Ublox.h:20-22 | Noise in which 0xB5 0x62 never occurs and which does not end in 0xB5 leaves a reset scanner in its reset state, however many bad preambles it holds. |
| UbxScanProofs.ResyncAfterNoise | C++/Navio/Common/Ublox.h:20-22 | A frame behind such noise completes exactly once, at its last byte, and the completed buffer is the frame. |
| UbxScanProofs.BadPreambleResync | C++/Navio/Common/Ublox.h:20-22 | A bad preamble (0xB5 followed by a byte other than 0x62 or 0xB5) is dropped, and the frame right behind it is scanned completely. |
| UbxScanProofs.StrayPreambleLosesFrame | C++/Navio/Common/Ublox.h:20-22 | The limit of resynchronisation: after a stray 0xB5 right before a frame, the frame's own preamble leaves the scanner reset in Sync1, so that frame is lost. |
| UbxScanProofs.CompletedFrameChecked | C++/Navio/Common/Ublox.h:287 | A completed scan is well-framed. It passes the checksum check exactly when it is the frame built from its own class, id and payload. |
| UbloxDriver.GnssFrameShape | C++/Navio/Common/Ublox.h:269-276 | The GNSS-config frame carries a 12-byte payload with one block. The block holds the requested system, channel counts and enable bit. |
| UbloxDriver.ConfigureMessageFrameSize | C++/Navio/Common/Ublox.h:13 | A CFG-MSG frame is 6 + 3 + 2 = `kConfigureMessageSize` (11) bytes. |
| UbloxDriver.SolutionRate200Frame | C++/Navio/Common/Ublox.h:176 | `configureSolutionRate(200, 1, 1)` sends exactly B5 62 06 08 06 00 C8 00 01 00 01 00 DE 6A. |
| UbloxDriver.EnableMsgPayload | C++/Navio/Common/Ublox.h:171-172 | The CFG-MSG payload names exactly the message being switched: its class and id decode to that `message_t`. The rate is 1 when enabling and 0 when disabling. |
| UbloxDriver.DynamicsModelPayload | C++/Navio/Common/Ublox.h:178-179 | The CFG-NAV5 payload's mask is the `dyn` bit alone, its dynamic-model field carries the requested model's code, and the reserved arrays have their declared lengths. |
| UbloxDriver.GnssPayload | C++/Navio/Common/Ublox.h:269-276 | The single CFG-GNSS block carries the requested system and channel counts. Bit 0 of its flags is set exactly when enabling, the signal field selects the primary signal, and all hardware channels are in use. |
| UbloxDriver.CheckedAnswer | C++/Navio/Common/Ublox.h:290 | A completed frame answers (cls, id) exactly when its checksum is valid and it is an ACK-ACK or ACK-NAK naming (cls, id). Its answer is then the acknowledgement outcome. |
| UbloxDriver.AckVerdictFirstAnswer | C++/Navio/Common/Ublox.h:290 | The acknowledgement wait succeeds exactly when some frame received before `kWaitForGnssAck` runs out is a checksum-valid ACK-ACK for (cls, id) and no earlier valid frame answered (cls, id). An ACK-NAK first, a corrupted ACK-ACK alone, or no answer before the time-out, is a failure. |
| UbloxDriver.Ublox.SpliceMemory | C++/Navio/Common/Ublox.h:284 | Copies the source into the destination at the offset and returns the offset just past it. Everything outside the copied range is unchanged. |
| UbloxDriver.Ublox.CalculateCheckSum | C++/Navio/Common/Ublox.h:286-287 | The two running accumulators over `size` bytes equal the checksum of that window. |
| UbloxDriver.Ublox.SendMessage | C++/Navio/Common/Ublox.h:283 | Sends exactly the built frame and reports success when the frame fits the 1024-byte buffer. Otherwise it sends nothing and fails. |
| UbloxDriver.Ublox.WaitForAcknowledge | C++/Navio/Common/Ublox.h:290 | Walking the frames received during the wait and passing over those with a bad checksum, it returns exactly the acknowledgement verdict for (cls, id). |
| UbloxDriver.Ublox.EnableMsg | C++/Navio/Common/Ublox.h:172 | Sends one CFG-MSG frame for the message's class and id, with rate 1 to enable and 0 to disable. Returns true exactly when the receiver acknowledges CFG-MSG within the wait (`waitForAcknowledge`, line 290). |
| UbloxDriver.Ublox.ConfigureSolutionRate | C++/Navio/Common/Ublox.h:176 | Sends one CFG-RATE frame with the three rates. Returns true exactly when the receiver acknowledges CFG-RATE within the wait (`waitForAcknowledge`, line 290). |
| UbloxDriver.Ublox.ConfigureDynamicsModel | C++/Navio/Common/Ublox.h:179 | Sends one CFG-NAV5 frame whose mask selects only the dynamic model. Returns true exactly when the receiver acknowledges CFG-NAV5 within the wait (`waitForAcknowledge`, line 290). |
| UbloxDriver.Ublox.ConfigureGnss | C++/Navio/Common/Ublox.h:289-290 | Refuses, sending nothing, when a major system (GPS, Galileo, BeiDou, GLONASS) is given fewer than `kMinMaxTrkChForMajorGnss` channels. Otherwise it sends one CFG-GNSS frame. Returns true exactly when the channel check passes and the receiver acknowledges CFG-GNSS within the wait. |
| UbloxDriver.Ublox.ConfigureGnssSystem | C++/Navio/Common/Ublox.h:182-187 | The per-system calls are `configureGnss` with that system's id: the same traffic and the same verdict. |
| UbloxDriver.DefaultChannelsAccepted | C++/Navio/Common/Ublox.h:182-187 | Every system's default channel counts reserve no more channels than they allow, and are accepted by `configureGnss`. |
| Transport.SpiDev.Transfer | C++/Navio/Common/MPU9250.cpp:27 | A transfer logs the transmitted frame and returns as many bytes as it sent. |
| Mpu9250Driver.WithReadFlag | C++/Navio/Common/MPU9250.cpp:36 | `addr \| READ_FLAG` sets bit 7, keeps the low seven bits, and leaves an already-flagged address alone. |
| Mpu9250Driver.AccDivider | C++/Navio/Common/MPU9250.cpp:162-181 | Exactly the four range codes have a divider (16384, 8192, 4096, 2048). Divider times range in g is 32768. |
| Mpu9250Driver.GyroDivider | C++/Navio/Common/MPU9250.cpp:194-212 | Exactly the four gyroscope range codes have a divider. |
| Mpu9250Driver.TableWrites | C++/Navio/Common/MPU9250.cpp:142-146 | A table walk sends one write per row, in order, each writing column 0 to the register in column 1. |
| Mpu9250Driver.ReadFrame | C++/Navio/Common/MPU9250.cpp:45-50 | A burst read transmits n + 1 bytes: the address with the read flag, then zeros. |
| Mpu9250Driver.WordOf | C++/Navio/Common/MPU9250.cpp:289 | `((int16_t)hi << 8) \| lo` is the two's-complement reading of hi*256+lo. It lies in [-32768, 32767] and is negative exactly when the high byte's top bit is set. |
| Mpu9250Driver.WordBytes | C++/Navio/Common/MPU9250.cpp:289 | Both bytes can be read back from the assembled word. |
| Mpu9250Driver.WordBytesOf | C++/Navio/Common/MPU9250.cpp:289 | Every `int16_t` is the word of some byte pair. |
| Mpu9250Driver.BigEndianWords | C++/Navio/Common/MPU9250.cpp:287-303 | A high-byte-first string of 2n bytes gives n words, and word j is built from bytes 2j (high) and 2j+1 (low). |
| Mpu9250Driver.LittleEndianWords | C++/Navio/Common/MPU9250.cpp:309-312 | A low-byte-first string of 2n bytes gives n words, and word j is built from bytes 2j+1 (high) and 2j (low). |
| Mpu9250Driver.BigEndianBytes | C++/Navio/Common/MPU9250.cpp:287-303 | Laying out n words high byte first gives 2n bytes, and bytes 2j and 2j+1 assemble back into word j. |
| Mpu9250Driver.LittleEndianBytes | C++/Navio/Common/MPU9250.cpp:309-312 | Laying out n words low byte first gives 2n bytes, and bytes 2j+1 and 2j assemble back into word j. |
| Mpu9250Driver.BigEndianBytesOfWords | C++/Navio/Common/MPU9250.cpp:287-303 | Splitting high-byte-first bytes into words and laying them out again gives the bytes back. |
| Mpu9250Driver.LittleEndianBytesOfWords | C++/Navio/Common/MPU9250.cpp:309-312 | The same for the low-byte-first magnetometer words. |
| Mpu9250Driver.BigEndianWordsOfBytes | C++/Navio/Common/MPU9250.cpp:287-303 | Laying words out high byte first and splitting them again gives the words back. |
| Mpu9250Driver.LittleEndianWordsOfBytes | C++/Navio/Common/MPU9250.cpp:309-312 | The same for low byte first. |
| Mpu9250Driver.DecodeBurst | C++/Navio/Common/MPU9250.cpp:284-312 | A 21-byte burst decodes to three accelerometer words, a temperature word, three gyroscope words and three magnetometer words. Where each word comes from is stated by BurstOffsets. |
| Mpu9250Driver.EncodeBurst | C++/Navio/Common/MPU9250.cpp:284-312 | The burst a sensor sends for a sample and a status byte is 21 bytes long. Its layout is pinned down by BurstLayoutExact and BurstDecodesSample. |
| Mpu9250Driver.BurstOffsets | C++/Navio/Common/MPU9250.cpp:284-312 | In the 21-byte burst, accelerometer words are at 0, 2, 4, temperature at 6 and gyroscope at 8, 10, 12, all high byte first. Magnetometer words are at 14, 16, 18, low byte first. |
| Mpu9250Driver.BurstLayoutExact | C++/Navio/Common/MPU9250.cpp:284-312 | Decoding a burst and laying its words back out gives the burst, so no byte is lost, duplicated or swapped. |
| Mpu9250Driver.BurstDecodesSample | C++/Navio/Common/MPU9250.cpp:284-312 | Every sample is decoded from the burst that encodes it. |
| Mpu9250Driver.AssembleWords | C++/Navio/Common/MPU9250.cpp:286-312 | The three loops of `update`, including the temperature read at `i * 2` after the first loop, produce exactly the decoded burst. |
| Mpu9250Driver.MPU9250.WriteReg | C++/Navio/Common/MPU9250.cpp:22-30 | Sends [addr, data] and returns the second byte of the reply. |
| Mpu9250Driver.MPU9250.ReadReg | C++/Navio/Common/MPU9250.cpp:34-37 | Exactly `WriteReg(addr \| READ_FLAG, 0)`. |
| Mpu9250Driver.MPU9250.ReadRegs | C++/Navio/Common/MPU9250.cpp:41-55 | Needs the count to pass `ReadRegsGuard`, the size check without wrap-around. Sends the flagged address and `Bytes` zeros. Stores reply bytes 1..Bytes in buf[0..Bytes), dropping the first reply byte, and leaves every element from `Bytes` on unchanged. |
| Mpu9250Driver.ReadRegsGuardAsWritten | C++/Navio/Common/MPU9250.cpp:43 | The size check as compiled, with `Bytes + 1` in `uint32_t`, admits exactly the counts with Bytes + 1 < 255, plus 0xFFFFFFFF, whose sum wraps to 0. |
| Mpu9250Driver.ReadRegsGuardOverrun | C++/Navio/Common/MPU9250.cpp:43-54 | The count 0xFFFFFFFF passes the compiled check although its exchange is far longer than the 255-byte transfer buffers. |
| Mpu9250Driver.ReadRegsGuard | C++/Navio/Common/MPU9250.cpp:43 | The intended check admits exactly the counts with Bytes + 1 < 255, and it admits nothing the compiled check rejects. |
| Mpu9250Driver.MPU9250.Probe | C++/Navio/Common/MPU9250.cpp:63-83 | Sends the probe's seven frames. Returns true if and only if WHOAMI answered 0x71 and the magnetometer's WIA answered 0x48. |
| Mpu9250Driver.MPU9250.SetAccScale | C++/Navio/Common/MPU9250.cpp:162-181 | Writes the code to ACCEL_CONFIG. Sets the code's divider, or leaves the divider unchanged for any other code. Nothing else changes. |
| Mpu9250Driver.MPU9250.SetGyroScale | C++/Navio/Common/MPU9250.cpp:194-212 | The same for GYRO_CONFIG and the gyroscope divider. |
| Mpu9250Driver.MPU9250.CalibMag | C++/Navio/Common/MPU9250.cpp:242-265 | Points I2C slave 0 at the magnetometer's ASA registers and keeps the three adjustment bytes read back. |
| Mpu9250Driver.MPU9250.WriteInitTable | C++/Navio/Common/MPU9250.cpp:142-146 | The table walk sends exactly one write per table row, in table order. |
| Mpu9250Driver.MPU9250.Initialize | C++/Navio/Common/MPU9250.cpp:100-149 | Sets ±4 g and ±500 dps, then makes exactly 16 table writes in table order, then the magnetometer calibration read. Afterwards the dividers are 8192 and 65.5, `magAsa` holds the three bytes of the calibration reply, and the last sample is unchanged. |
| Mpu9250Driver.MPU9250.InitializeScalesLast | C++/Navio/Common/MPU9250.cpp:137-146 | The corrected `initialize`: the same traffic with the scale calls after the table. The chip's ranges then match the dividers, which are 8192 and 65.5. `magAsa` holds the calibration reply, and the last sample is unchanged. |
| Mpu9250Driver.MPU9250.ReadBurst | C++/Navio/Common/MPU9250.cpp:274-283 | Sends the three I2C-slave setup writes and the 22-byte read from ACCEL_XOUT_H. Returns a fresh 21-byte array holding reply bytes 1..21. |
| Mpu9250Driver.MPU9250.Update | C++/Navio/Common/MPU9250.cpp:269-316 | Sets up the magnetometer read and reads the 21-byte burst from ACCEL_XOUT_H. Its raw sample is the decoded burst, and the dividers are unchanged. |
| Mpu9250Driver.ProbeReadsWhoami | C++/Navio/Common/MPU9250.cpp:67-77 | `probe` flags WHOAMI twice. The flag is idempotent, so its first frame is the ordinary read of WHOAMI and its last frame the read of EXT_SENS_DATA_00. |
| Mpu9250Driver.InitTableWrites | C++/Navio/Common/MPU9250.cpp:100-135 | The table walk makes `MPU_InitRegNum` (16) writes. The first write is 0x01 to PWR_MGMT_1, the fifth is ±16 g to ACCEL_CONFIG, and the last is 0x81 to I2C_SLV0_CTRL. |
| Mpu9250Driver.InitializeScalesMismatch | C++/Navio/Common/MPU9250.cpp:105-146 | As written, the last codes `initialize` writes to ACCEL_CONFIG and GYRO_CONFIG are ±16 g and ±2000 dps, which do not match its dividers 8192 and 65.5. |
| Mpu9250Driver.ScalesLastMatch | C++/Navio/Common/MPU9250.cpp:137-146 | With the scale writes after the table, the last codes written are ±4 g and ±500 dps, matching dividers 8192 and 65.5. |

## Findings

| source | as written | input that shows it | evidently intended | confidence | as-written member | corrected member |
|---|---|---|---|---|---|---|
| C++/Navio/Common/MPU9250.cpp:111-146 | `initialize` calls `set_acc_scale(BITS_FS_4G)` and `set_gyro_scale(BITS_FS_500DPS)` before the table walk. The fourth and fifth table rows (lines 111 and 112) then write ±2000 dps to GYRO_CONFIG and ±16 g to ACCEL_CONFIG. | One call of `initialize()`: the chip is left at ±16 g / ±2000 dps while `acc_divider` = 8192 and `gyro_divider` = 65.5, so accelerations and rates read a quarter of their value. | The chip's ranges match the dividers (the commented-out calls at lines 136-137 show the scale was changed from ±16 g / ±2000 dps to ±4 g / ±500 dps). | medium, not executed | Mpu9250Driver.InitializeScalesMismatch | Mpu9250Driver.MPU9250.InitializeScalesLast |
| C++/Navio/Common/MPU9250.cpp:43 | `assert(Bytes + 1 < DATA_LENGTH)` adds in `uint32_t`, so `Bytes + 1` wraps to 0 for the largest count. | `ReadRegs(addr, buf, 0xFFFFFFFF)`: the check passes, then `transfer` is asked for 0 bytes and the copy loop reads `rx[i + 1]` for i up to 0xFFFFFFFE, far past the 255-byte `rx`. | Only counts whose exchange fits the 255-byte buffers pass, e.g. `Bytes < DATA_LENGTH - 1`. | high, not executed | Mpu9250Driver.ReadRegsGuardOverrun | Mpu9250Driver.ReadRegsGuard |

## Left out

- Ublox.cpp is not part of this model. Every UBX method body (`update`, `reset`, `calcId`, `sendMessage`, `spliceMemory`, `calculateCheckSum`, `configure*`) is reconstructed from the header and the u-blox protocol specification. Five points come from that reconstruction:
  - the payload field values of `configureDynamicsModel` and `configureGnss`;
  - `sendMessage` refusing a payload whose frame exceeds the 1024-byte buffer;
  - the scanner's handling of an oversize declared length;
  - `configureGnss` refusing, without sending anything, fewer than `kMinMaxTrkChForMajorGnss` channels for a major system;
  - that each configuration command sends its frame and then returns the
    verdict of `waitForAcknowledge` for that frame's class and id;
  - that the wait discards a completed frame whose checksum fails before interpreting it.
- `waitForAcknowledge`: the wall-clock polling of the scanner until `kWaitForGnssAck` runs out is left out, because it is timing over SPI. What the wait sees is an input: the frames the scanner completes before the time-out, in arrival order. The verdict drawn from them is modelled (`AckVerdict`, `Ublox.WaitForAcknowledge`).
- `UBXParser::getLatestMsg` and its field `latest_id_` are left out. The field is written only by code in Ublox.cpp, which is not part of this model.
- `Ublox::update` (the receive poll loop) and `enableAllMsgs` are left out. Their bodies are not in the header, and the set of messages `enableAllMsgs` covers is not visible.
- The `decode(...)` overloads are left out. Their record layouts live in ubx_payload.hpp, which is not part of this model.
- SPIdev and I2Cdev are not part of this model. An SPI transfer is a scripted exchange (`Transport.SpiDev`), and the `usleep` delays are dropped.
- MPU9250.h is not part of this model. Register addresses, scale codes, `READ_FLAG` and the expected identity bytes are taken from the MPU-9250 and AK8963 register maps.
- Floating-point unit conversion is left out: `G_SI`, `DEG2RAD`, the temperature formula, `calib_mag`'s sensitivity-adjustment factors and the `ax_` .. `mz_` fields. The model keeps the raw signed words and the three raw adjustment bytes.
- Mpu9250Driver.GyroDivider: the gyroscope dividers are stated as exact decimals (131, 65.5, 32.8, 16.4). Their float rounding is not modelled, and they carry no "divider × range" identity, since 32.8 and 16.4 are rounded.
- `MPU9250::calib_acc` is left out. `initialize` does not call it, and its masks at MPU9250.cpp:233-235 are decimal and octal literals rather than the binary masks their comments suggest.
- MS5611.cpp is left out: I2C reads plus floating-point compensation.
- The example programs, the attitude filter, and the FRAM and PWM wrappers are left out, because they hold no logic of the two cores.
