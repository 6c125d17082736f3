/** The packed CFG payloads the driver sends, each with its byte layout (all
    multi-byte fields little-endian, no padding) and a decoder that rejects a
    payload of the wrong length. Field order and widths follow the structs
    of the driver; their meaning follows the u-blox 8 / M8 protocol
    specification: CFG-MSG section 32.10.18.3, CFG-RATE 32.10.27.1, CFG-NAV5
    32.10.19.1, CFG-GNSS 32.10.13.1. */
module UbxConfig {
  import opened Bytes
  import opened Wrappers
  import opened UbxMessages

  /** `struct PACKED CfgMsg` (3 bytes). */
  datatype CfgMsg = CfgMsg(msgClass: byte, msgId: byte, rate: byte)

  const CfgMsgSize: nat := 3

  function EncodeCfgMsg(m: CfgMsg): (r: seq<byte>)
    ensures |r| == CfgMsgSize
    ensures DecodeCfgMsg(r) == Some(m)
  {
    [m.msgClass, m.msgId, m.rate]
  }

  function DecodeCfgMsg(b: seq<byte>): (r: Option<CfgMsg>)
    ensures r.Some? <==> |b| == CfgMsgSize
  {
    if |b| != CfgMsgSize then None else Some(CfgMsg(b[0], b[1], b[2]))
  }

  /** `struct PACKED CfgRate` (6 bytes). */
  datatype CfgRate = CfgRate(measRate: uint16, navRate: uint16, timeRef: uint16)

  const CfgRateSize: nat := 6

  function EncodeCfgRate(c: CfgRate): (r: seq<byte>)
    ensures |r| == CfgRateSize
    ensures DecodeCfgRate(r) == Some(c)
  {
    U16Le(c.measRate) + U16Le(c.navRate) + U16Le(c.timeRef)
  }

  function DecodeCfgRate(b: seq<byte>): (r: Option<CfgRate>)
    ensures r.Some? <==> |b| == CfgRateSize
  {
    if |b| != CfgRateSize then None
    else Some(CfgRate(U16FromLe(b[0], b[1]), U16FromLe(b[2], b[3]), U16FromLe(b[4], b[5])))
  }

  /** `struct PACKED CfgNav5` (36 bytes). The two reserved arrays keep their
      declared lengths, 2 and 5. */
  datatype CfgNav5 = CfgNav5(
    mask: uint16, dynModel: byte, fixMode: byte, fixedAlt: int32, fixedAltVar: uint32,
    minElev: int8, drLimit: byte, pDop: uint16, tDop: uint16, pAcc: uint16, tAcc: uint16,
    staticHoldThresh: byte, dgnssTimeout: byte, cnoThreshNumSVs: byte, cnoThresh: byte,
    reserved1: seq<byte>, staticHoldMaxDist: uint16, utcStandard: byte, reserved2: seq<byte>)
  {
    predicate Valid() { |reserved1| == 2 && |reserved2| == 5 }
  }

  const CfgNav5Size: nat := 36

  // The 36 bytes in three runs: mask through fixedAltVar (bytes 0..11),
  // minElev through tAcc (12..21), staticHoldThresh through reserved2 (22..35).

  function EncodeNav5Head(c: CfgNav5): (r: seq<byte>)
    ensures |r| == 12
  {
    var mask, alt, altVar := U16Le(c.mask), U32Le(FromInt32(c.fixedAlt)), U32Le(c.fixedAltVar);
    [mask[0], mask[1], c.dynModel, c.fixMode, alt[0], alt[1], alt[2], alt[3],
     altVar[0], altVar[1], altVar[2], altVar[3]]
  }

  function EncodeNav5Middle(c: CfgNav5): (r: seq<byte>)
    ensures |r| == 10
  {
    var pDop, tDop, pAcc, tAcc := U16Le(c.pDop), U16Le(c.tDop), U16Le(c.pAcc), U16Le(c.tAcc);
    [FromInt8(c.minElev), c.drLimit, pDop[0], pDop[1], tDop[0], tDop[1],
     pAcc[0], pAcc[1], tAcc[0], tAcc[1]]
  }

  function EncodeNav5Tail(c: CfgNav5): (r: seq<byte>)
    requires c.Valid()
    ensures |r| == 14
  {
    var dist := U16Le(c.staticHoldMaxDist);
    [c.staticHoldThresh, c.dgnssTimeout, c.cnoThreshNumSVs, c.cnoThresh,
     c.reserved1[0], c.reserved1[1], dist[0], dist[1], c.utcStandard,
     c.reserved2[0], c.reserved2[1], c.reserved2[2], c.reserved2[3], c.reserved2[4]]
  }

  function EncodeCfgNav5(c: CfgNav5): (r: seq<byte>)
    requires c.Valid()
    ensures |r| == CfgNav5Size
    ensures DecodeCfgNav5(r) == Some(c)
  {
    var r := EncodeNav5Head(c) + EncodeNav5Middle(c) + EncodeNav5Tail(c);
    Nav5HeadDecodes(c, r);
    Nav5MiddleDecodes(c, r);
    Nav5TailDecodes(c, r);
    r
  }

  function DecodeCfgNav5(b: seq<byte>): (r: Option<CfgNav5>)
    ensures r.Some? <==> |b| == CfgNav5Size
    ensures r.Some? ==> r.value.Valid()
  {
    if |b| != CfgNav5Size then None
    else Some(CfgNav5(
      U16FromLe(b[0], b[1]), b[2], b[3], ToInt32(U32FromLe(b[4..8])), U32FromLe(b[8..12]),
      ToInt8(b[12]), b[13], U16FromLe(b[14], b[15]), U16FromLe(b[16], b[17]),
      U16FromLe(b[18], b[19]), U16FromLe(b[20], b[21]),
      b[22], b[23], b[24], b[25], b[26..28], U16FromLe(b[28], b[29]), b[30], b[31..36]))
  }

  lemma Nav5HeadDecodes(c: CfgNav5, r: seq<byte>)
    requires |r| == CfgNav5Size && r[..12] == EncodeNav5Head(c)
    ensures U16FromLe(r[0], r[1]) == c.mask && r[2] == c.dynModel && r[3] == c.fixMode
    ensures ToInt32(U32FromLe(r[4..8])) == c.fixedAlt && U32FromLe(r[8..12]) == c.fixedAltVar
  {
    var h := EncodeNav5Head(c);
    assert r[0] == h[0] && r[1] == h[1] && r[2] == h[2] && r[3] == h[3];
    U16FromBytes(c.mask, r[0], r[1]);
    U32FromBytes(FromInt32(c.fixedAlt), r[4..8]);
    Int32RoundTrip(c.fixedAlt);
    U32FromBytes(c.fixedAltVar, r[8..12]);
  }

  lemma Nav5MiddleDecodes(c: CfgNav5, r: seq<byte>)
    requires |r| == CfgNav5Size && r[12..22] == EncodeNav5Middle(c)
    ensures ToInt8(r[12]) == c.minElev && r[13] == c.drLimit
    ensures U16FromLe(r[14], r[15]) == c.pDop && U16FromLe(r[16], r[17]) == c.tDop
    ensures U16FromLe(r[18], r[19]) == c.pAcc && U16FromLe(r[20], r[21]) == c.tAcc
  {
    var m := EncodeNav5Middle(c);
    assert r[12] == m[0] && r[13] == m[1] && r[14] == m[2] && r[15] == m[3] && r[16] == m[4];
    assert r[17] == m[5] && r[18] == m[6] && r[19] == m[7] && r[20] == m[8] && r[21] == m[9];
    Int8RoundTrip(c.minElev);
    U16FromBytes(c.pDop, r[14], r[15]);
    U16FromBytes(c.tDop, r[16], r[17]);
    U16FromBytes(c.pAcc, r[18], r[19]);
    U16FromBytes(c.tAcc, r[20], r[21]);
  }

  lemma Nav5TailDecodes(c: CfgNav5, r: seq<byte>)
    requires c.Valid() && |r| == CfgNav5Size && r[22..] == EncodeNav5Tail(c)
    ensures r[22] == c.staticHoldThresh && r[23] == c.dgnssTimeout
    ensures r[24] == c.cnoThreshNumSVs && r[25] == c.cnoThresh && r[26..28] == c.reserved1
    ensures U16FromLe(r[28], r[29]) == c.staticHoldMaxDist && r[30] == c.utcStandard && r[31..36] == c.reserved2
  {
    assert r[22..][6] == r[28] && r[22..][7] == r[29];
    assert r[26..28] == r[22..][4..6];
    assert r[31..36] == r[22..][9..14];
    U16FromBytes(c.staticHoldMaxDist, r[28], r[29]);
  }

  /** `struct PACKED CfgGnssBlock` (8 bytes). */
  datatype CfgGnssBlock = CfgGnssBlock(gnssId: byte, resTrkCh: byte, maxTrkCh: byte, reserved1: byte, flags: uint32)

  const CfgGnssBlockSize: nat := 8

  function EncodeCfgGnssBlock(k: CfgGnssBlock): (r: seq<byte>)
    ensures |r| == CfgGnssBlockSize
    ensures DecodeCfgGnssBlock(r) == Some(k)
  {
    var r := [k.gnssId, k.resTrkCh, k.maxTrkCh, k.reserved1] + U32Le(k.flags);
    assert r[4..] == U32Le(k.flags);
    r
  }

  function DecodeCfgGnssBlock(b: seq<byte>): (r: Option<CfgGnssBlock>)
    ensures r.Some? <==> |b| == CfgGnssBlockSize
  {
    if |b| != CfgGnssBlockSize then None
    else Some(CfgGnssBlock(b[0], b[1], b[2], b[3], U32FromLe(b[4..])))
  }

  /** `struct PACKED CfgGnss` (12 bytes): a four-byte envelope whose
      `numConfigBlocks` is always 1, followed by exactly one block. */
  datatype CfgGnss = CfgGnss(msgVer: byte, numTrkChHw: byte, numTrkChUse: byte, block: CfgGnssBlock)

  const CfgGnssSize: nat := 12
  const NumConfigBlocks: byte := 1

  function EncodeCfgGnss(g: CfgGnss): (r: seq<byte>)
    ensures |r| == CfgGnssSize && r[3] == NumConfigBlocks
    ensures DecodeCfgGnss(r) == Some(g)
  {
    var r := [g.msgVer, g.numTrkChHw, g.numTrkChUse, NumConfigBlocks] + EncodeCfgGnssBlock(g.block);
    assert r[4..] == EncodeCfgGnssBlock(g.block);
    r
  }

  /** Rejects a payload of the wrong length and any block count other than 1. */
  function DecodeCfgGnss(b: seq<byte>): (r: Option<CfgGnss>)
    ensures r.Some? <==> |b| == CfgGnssSize && b[3] == NumConfigBlocks
  {
    if |b| != CfgGnssSize || b[3] != NumConfigBlocks then None
    else
      var block := DecodeCfgGnssBlock(b[4..]);
      Some(CfgGnss(b[0], b[1], b[2], block.value))
  }

  // The decoders lose nothing: every payload they accept is the encoding of
  // what they return.

  lemma CfgMsgLayoutExact(b: seq<byte>)
    requires DecodeCfgMsg(b).Some?
    ensures EncodeCfgMsg(DecodeCfgMsg(b).value) == b
  {
  }

  lemma CfgRateLayoutExact(b: seq<byte>)
    requires DecodeCfgRate(b).Some?
    ensures EncodeCfgRate(DecodeCfgRate(b).value) == b
  {
    assert b == b[0..2] + b[2..4] + b[4..6];
  }

  lemma CfgNav5LayoutExact(b: seq<byte>)
    requires DecodeCfgNav5(b).Some?
    ensures EncodeCfgNav5(DecodeCfgNav5(b).value) == b
  {
    var c := DecodeCfgNav5(b).value;
    Nav5HeadExact(b, c);
    Nav5MiddleExact(b, c);
    Nav5TailExact(b, c);
    assert b == b[..12] + b[12..22] + b[22..];
  }

  lemma Nav5HeadExact(b: seq<byte>, c: CfgNav5)
    requires |b| == CfgNav5Size && DecodeCfgNav5(b) == Some(c)
    ensures EncodeNav5Head(c) == b[..12]
  {
    assert U32Le(FromInt32(c.fixedAlt)) == b[4..8];
    assert U32Le(c.fixedAltVar) == b[8..12];
  }

  lemma Nav5MiddleExact(b: seq<byte>, c: CfgNav5)
    requires |b| == CfgNav5Size && DecodeCfgNav5(b) == Some(c)
    ensures EncodeNav5Middle(c) == b[12..22]
  {
  }

  lemma Nav5TailExact(b: seq<byte>, c: CfgNav5)
    requires |b| == CfgNav5Size && DecodeCfgNav5(b) == Some(c)
    ensures EncodeNav5Tail(c) == b[22..]
  {
  }

  lemma CfgGnssLayoutExact(b: seq<byte>)
    requires DecodeCfgGnss(b).Some?
    ensures EncodeCfgGnss(DecodeCfgGnss(b).value) == b
  {
    assert b[4..] == b[4..8] + b[8..12];
    assert b == b[..4] + b[4..];
  }
}
