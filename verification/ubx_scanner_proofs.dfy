/** Properties of the UBX scanner over whole byte streams: the buffer never
    overflows, noise without the preamble never completes a frame, every
    built frame is scanned back exactly, and a frame behind noise is found
    exactly once. */
module UbxScanProofs {
  import opened Bytes
  import opened UbxMessages
  import opened UbxChecksum
  import opened UbxFrames
  import opened UbxScan

  /** The scanner after `update` has been called on each byte in turn. */
  function Steps(s: Scan, bytes: seq<byte>): Scan
    decreases |bytes|
  {
    if bytes == [] then s
    else Step(Steps(s, bytes[..|bytes| - 1]), bytes[|bytes| - 1])
  }

  /** Whatever bytes arrive, the invariant holds: in particular the write
      position never exceeds the 1024-byte buffer. */
  lemma {:induction false} StepsInv(s: Scan, bytes: seq<byte>)
    requires Inv(s)
    ensures Inv(Steps(s, bytes))
    ensures |Steps(s, bytes).buf| <= BufferLength
    decreases |bytes|
  {
    if bytes != [] {
      StepsInv(s, bytes[..|bytes| - 1]);
      StepInv(Steps(s, bytes[..|bytes| - 1]), bytes[|bytes| - 1]);
    }
  }

  /** Feeding a + b is feeding a, then b. */
  lemma {:induction false} StepsAppend(s: Scan, a: seq<byte>, b: seq<byte>)
    ensures Steps(s, a + b) == Steps(Steps(s, a), b)
    decreases |b|
  {
    if b == [] {
      assert a + b == a;
    } else {
      assert (a + b)[..|a + b| - 1] == a + b[..|b| - 1];
      StepsAppend(s, a, b[..|b| - 1]);
    }
  }

  /** The transitions follow the declared order Sync1, Sync2, Class, ID,
      Length1, Length2, Payload*, CK_A, CK_B, Done; the only way back is to
      Sync1, from a wrong second preamble byte or an oversize length. */
  predicate Advance(from: State, to: State)
  {
    match from
    case Sync1 => to in {Sync1, Sync2}
    case Sync2 => to in {Class, Sync1}
    case Class => to == ID
    case ID => to == Length1
    case Length1 => to == Length2
    case Length2 => to in {Payload, CK_A, Sync1}
    case Payload => to in {Payload, CK_A}
    case CK_A => to == CK_B
    case CK_B => to == Done
    case Done => to == Done
  }

  lemma StepAdvances(s: Scan, b: byte)
    ensures Advance(s.state, Step(s, b).state)
    ensures s.state == Sync1 && b != PREAMBLE1 ==> Step(s, b) == s
    ensures s.state == Sync2 && b != PREAMBLE2 ==> Step(s, b) == Init
  {
  }

  /** Noise containing no 0xB5 leaves a reset scanner untouched: Sync1 with
      nothing stored. */
  lemma {:induction false} NoiseIgnored(noise: seq<byte>)
    requires forall i :: 0 <= i < |noise| ==> noise[i] != PREAMBLE1
    ensures Steps(Init, noise) == Init
    decreases |noise|
  {
    if noise != [] {
      NoiseIgnored(noise[..|noise| - 1]);
    }
  }

  /** Whether 0xB5 0x62 occurs in `bytes` at some position. */
  predicate HasPreamble(bytes: seq<byte>)
  {
    exists i :: 0 <= i < |bytes| - 1 && bytes[i] == PREAMBLE1 && bytes[i + 1] == PREAMBLE2
  }

  /** A stream in which the two preamble bytes never occur in sequence never
      gets past preamble matching, so it never reaches Done. */
  lemma {:induction false} NoPreambleNoFrame(bytes: seq<byte>)
    requires !HasPreamble(bytes)
    ensures Steps(Init, bytes).state in {Sync1, Sync2}
    ensures Steps(Init, bytes).state == Sync2 ==> bytes != [] && bytes[|bytes| - 1] == PREAMBLE1
    decreases |bytes|
  {
    if bytes != [] {
      var init := bytes[..|bytes| - 1];
      forall i | 0 <= i < |init| - 1
        ensures !(init[i] == PREAMBLE1 && init[i + 1] == PREAMBLE2)
      {
        assert init[i] == bytes[i] && init[i + 1] == bytes[i + 1];
      }
      NoPreambleNoFrame(init);
      if Steps(Init, init).state == Sync2 {
        var i := |bytes| - 2;
        assert bytes[i] == PREAMBLE1;
        assert !(bytes[i] == PREAMBLE1 && bytes[i + 1] == PREAMBLE2);
      }
    }
  }

  /** The scanner after the first k bytes of a frame with an n-byte payload. */
  function Expected(f: seq<byte>, n: nat, k: nat): Scan
    requires k <= |f|
  {
    if k == 0 then Init
    else if k == 1 then Scan(Sync2, f[..k], 0, 0)
    else if k == 2 then Scan(Class, f[..k], 0, 0)
    else if k == 3 then Scan(ID, f[..k], 0, 0)
    else if k == 4 then Scan(Length1, f[..k], 0, 0)
    else if k == 5 then Scan(Length2, f[..k], f[4], 0)
    else if k < HeaderLength + n then Scan(Payload, f[..k], HeaderLength + n - k, 0)
    else if k == HeaderLength + n then Scan(CK_A, f[..k], 0, 0)
    else if k == HeaderLength + n + 1 then Scan(CK_B, f[..k], 0, 0)
    else Scan(Done, f[..k], 0, k)
  }

  lemma ExpectedStep(cls: byte, id: byte, p: seq<byte>, k: nat)
    requires |p| <= MaxPayload
    requires k < |BuildFrame(cls, id, p)|
    ensures Step(Expected(BuildFrame(cls, id, p), |p|, k), BuildFrame(cls, id, p)[k])
         == Expected(BuildFrame(cls, id, p), |p|, k + 1)
  {
    if k < HeaderLength {
      ExpectedStepHeader(cls, id, p, k);
    } else {
      ExpectedStepBody(cls, id, p, k);
    }
  }

  /** The six header bytes: preamble, class, id and the two length bytes. */
  lemma ExpectedStepHeader(cls: byte, id: byte, p: seq<byte>, k: nat)
    requires |p| <= MaxPayload
    requires k < HeaderLength
    ensures Step(Expected(BuildFrame(cls, id, p), |p|, k), BuildFrame(cls, id, p)[k])
         == Expected(BuildFrame(cls, id, p), |p|, k + 1)
  {
    var f := BuildFrame(cls, id, p);
    assert f[..k] + [f[k]] == f[..k + 1];
    assert f[0] == PREAMBLE1 && f[1] == PREAMBLE2;
    assert f[4] as int + 0x100 * (f[5] as int) == |p| by {
      assert f[4..6] == U16Le(|p|);
    }
  }

  /** Payload and checksum bytes, counted down from the declared length. */
  lemma ExpectedStepBody(cls: byte, id: byte, p: seq<byte>, k: nat)
    requires |p| <= MaxPayload
    requires HeaderLength <= k < |BuildFrame(cls, id, p)|
    ensures Step(Expected(BuildFrame(cls, id, p), |p|, k), BuildFrame(cls, id, p)[k])
         == Expected(BuildFrame(cls, id, p), |p|, k + 1)
  {
    var f := BuildFrame(cls, id, p);
    assert f[..k] + [f[k]] == f[..k + 1];
  }

  /** Prefix by prefix, a built frame drives the scanner through exactly the
      expected states. */
  lemma {:induction false} FramePrefix(cls: byte, id: byte, p: seq<byte>, k: nat)
    requires |p| <= MaxPayload
    requires k <= |BuildFrame(cls, id, p)|
    ensures Steps(Init, BuildFrame(cls, id, p)[..k]) == Expected(BuildFrame(cls, id, p), |p|, k)
    decreases k
  {
    if k > 0 {
      FramePrefix(cls, id, p, k - 1);
      StepsPrefix(Init, BuildFrame(cls, id, p), k);
      ExpectedStep(cls, id, p, k - 1);
    }
  }

  /** Feeding the first k bytes is feeding the first k - 1, then byte k - 1. */
  lemma StepsPrefix(s: Scan, bytes: seq<byte>, k: nat)
    requires 0 < k <= |bytes|
    ensures Steps(s, bytes[..k]) == Step(Steps(s, bytes[..k - 1]), bytes[k - 1])
  {
    assert bytes[..k][..k - 1] == bytes[..k - 1];
  }

  /** Build then scan: any frame the builder produces, fed byte by byte into
      a reset scanner, reaches Done with the whole frame in the buffer, so the
      class, id, length and payload read back are those it was built from and
      its stored CK_A, CK_B match the recomputed checksum. It is the only
      completion on the way. */
  lemma ScanBuiltFrame(cls: byte, id: byte, p: seq<byte>)
    requires |p| <= MaxPayload
    ensures var f := BuildFrame(cls, id, p);
      && Steps(Init, f) == Scan(Done, f, 0, |f|)
      && FrameClass(f) == cls && FrameId(f) == id && FramePayload(f) == p
      && DeclaredLength(f) == |p| && ChecksumValid(f)
    ensures forall k :: 0 <= k < |BuildFrame(cls, id, p)| ==>
      Steps(Init, BuildFrame(cls, id, p)[..k]).state != Done
  {
    var f := BuildFrame(cls, id, p);
    FramePrefix(cls, id, p, |f|);
    assert f[..|f|] == f;
    forall k | 0 <= k < |f|
      ensures Steps(Init, f[..k]).state != Done
    {
      FramePrefix(cls, id, p, k);
    }
  }

  /** Noise a frame can follow: the preamble 0xB5 0x62 never occurs in it,
      and it does not end in 0xB5. Bad preambles (0xB5 followed by anything
      but 0x62) may occur anywhere else. */
  predicate QuietNoise(noise: seq<byte>)
  {
    !HasPreamble(noise) && (noise == [] || noise[|noise| - 1] != PREAMBLE1)
  }

  /** After quiet noise the scanner is back where `reset()` leaves it: each
      bad preamble is dropped by the second-preamble test. */
  lemma QuietNoiseIgnored(noise: seq<byte>)
    requires QuietNoise(noise)
    ensures Steps(Init, noise) == Init
  {
    NoPreambleNoFrame(noise);
    StepsInv(Init, noise);
  }

  /** A prefix of a stream without the preamble has none either. */
  lemma NoPreamblePrefix(bytes: seq<byte>, k: nat)
    requires !HasPreamble(bytes) && k <= |bytes|
    ensures !HasPreamble(bytes[..k])
  {
    forall i | 0 <= i < k - 1
      ensures !(bytes[..k][i] == PREAMBLE1 && bytes[..k][i + 1] == PREAMBLE2)
    {
      assert bytes[..k][i] == bytes[i] && bytes[..k][i + 1] == bytes[i + 1];
    }
  }

  /** The scanner after the first k bytes of noise followed by a frame. */
  lemma NoisyPrefix(noise: seq<byte>, cls: byte, id: byte, p: seq<byte>, k: nat)
    requires QuietNoise(noise)
    requires |p| <= MaxPayload
    requires k <= |noise| + |BuildFrame(cls, id, p)|
    ensures k <= |noise| ==> Steps(Init, (noise + BuildFrame(cls, id, p))[..k]).state in {Sync1, Sync2}
    ensures k > |noise| ==>
      Steps(Init, (noise + BuildFrame(cls, id, p))[..k]) == Expected(BuildFrame(cls, id, p), |p|, k - |noise|)
  {
    if k <= |noise| {
      NoisyPrefixInNoise(noise, BuildFrame(cls, id, p), k);
    } else {
      NoisyPrefixInFrame(noise, cls, id, p, k);
    }
  }

  lemma NoisyPrefixInNoise(noise: seq<byte>, f: seq<byte>, k: nat)
    requires !HasPreamble(noise)
    requires k <= |noise|
    ensures Steps(Init, (noise + f)[..k]).state in {Sync1, Sync2}
  {
    assert (noise + f)[..k] == noise[..k];
    NoPreamblePrefix(noise, k);
    NoPreambleNoFrame(noise[..k]);
  }

  lemma NoisyPrefixInFrame(noise: seq<byte>, cls: byte, id: byte, p: seq<byte>, k: nat)
    requires QuietNoise(noise)
    requires |p| <= MaxPayload
    requires |noise| < k <= |noise| + |BuildFrame(cls, id, p)|
    ensures Steps(Init, (noise + BuildFrame(cls, id, p))[..k]) == Expected(BuildFrame(cls, id, p), |p|, k - |noise|)
  {
    FramePrefix(cls, id, p, k - |noise|);
    NoiseThenPrefix(noise, BuildFrame(cls, id, p), k);
  }

  /** Quiet noise in front of any stream changes nothing. */
  lemma NoiseThenPrefix(noise: seq<byte>, f: seq<byte>, k: nat)
    requires QuietNoise(noise)
    requires |noise| <= k <= |noise| + |f|
    ensures Steps(Init, (noise + f)[..k]) == Steps(Init, f[..k - |noise|])
  {
    var g := f[..k - |noise|];
    assert (noise + f)[..k] == noise + g;
    StepsAppend(Init, noise, g);
    QuietNoiseIgnored(noise);
  }

  /** Resynchronisation: a frame behind any run of noise, bad preambles
      included, in which 0xB5 0x62 never occurs and which does not end in
      0xB5, produces exactly one completion, when its last byte arrives, and
      the completed buffer is the frame. */
  lemma ResyncAfterNoise(noise: seq<byte>, cls: byte, id: byte, p: seq<byte>)
    requires QuietNoise(noise)
    requires |p| <= MaxPayload
    ensures var s := noise + BuildFrame(cls, id, p);
      forall k :: 0 <= k <= |s| ==> (Steps(Init, s[..k]).state == Done <==> k == |s|)
    ensures Steps(Init, noise + BuildFrame(cls, id, p)).buf == BuildFrame(cls, id, p)
  {
    var f := BuildFrame(cls, id, p);
    var s := noise + f;
    forall k | 0 <= k <= |s|
      ensures Steps(Init, s[..k]).state == Done <==> k == |s|
    {
      NoisyPrefix(noise, cls, id, p, k);
    }
    NoisyPrefix(noise, cls, id, p, |s|);
    assert s[..|s|] == s;
    assert f[..|f|] == f;
  }

  /** A bad preamble, 0xB5 followed by a byte other than 0x62, is dropped:
      the scanner is reset and the frame behind it is found. */
  lemma BadPreambleResync(b: byte, cls: byte, id: byte, p: seq<byte>)
    requires b != PREAMBLE2 && b != PREAMBLE1
    requires |p| <= MaxPayload
    ensures Steps(Init, [PREAMBLE1, b] + BuildFrame(cls, id, p)).state == Done
    ensures Steps(Init, [PREAMBLE1, b] + BuildFrame(cls, id, p)).buf == BuildFrame(cls, id, p)
  {
    var noise := [PREAMBLE1, b];
    assert !HasPreamble(noise);
    ResyncAfterNoise(noise, cls, id, p);
    var s := noise + BuildFrame(cls, id, p);
    assert s[..|s|] == s;
  }

  /** The noise before a frame must not end in 0xB5: a stray 0xB5 right
      before a frame moves to Sync2, the frame's own 0xB5 then fails the
      second-preamble test and resets, and its 0x62 is ignored in Sync1, so
      the frame's preamble is lost. */
  lemma StrayPreambleLosesFrame(cls: byte, id: byte, p: seq<byte>)
    requires |p| <= MaxPayload
    ensures Steps(Init, [PREAMBLE1] + BuildFrame(cls, id, p)[..2]) == Init
  {
    var b := [PREAMBLE1] + BuildFrame(cls, id, p)[..2];
    assert b == [PREAMBLE1, PREAMBLE1, PREAMBLE2];
    assert b[..2] == [PREAMBLE1, PREAMBLE1] && b[..2][..1] == [PREAMBLE1];
    assert Steps(Init, [PREAMBLE1]) == Step(Steps(Init, []), PREAMBLE1);
  }

  /** What the owner of the scanner does with a completed frame: the
      checksum check accepts it exactly when it is the frame built from its
      own class, id and payload. */
  lemma CompletedFrameChecked(s: Scan)
    requires Inv(s) && s.state == Done
    ensures WellFramed(s.buf)
    ensures ChecksumValid(s.buf) <==> s.buf == BuildFrame(FrameClass(s.buf), FrameId(s.buf), FramePayload(s.buf))
  {
    ValidIffBuilt(s.buf);
  }
}
