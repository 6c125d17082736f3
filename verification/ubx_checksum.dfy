/** The UBX checksum (u-blox 8 / M8 protocol specification, section 32.4):
    the 8-bit Fletcher algorithm. Two 8-bit accumulators start at zero; for
    every byte of the window CK_A += byte and then CK_B += CK_A, both wrapping
    at 256. The window runs from the class byte through the last payload byte,
    so the preamble and the two checksum bytes themselves are excluded. */
module UbxChecksum {
  import opened Bytes

  /** `struct CheckSum { uint8_t CK_A; uint8_t CK_B; }` */
  datatype CheckSum = CheckSum(ckA: byte, ckB: byte)

  /** The packed two-byte layout of CheckSum: CK_A then CK_B. */
  function EncodeCheckSum(c: CheckSum): (r: seq<byte>)
    ensures |r| == 2
    ensures DecodeCheckSum(r) == c
  {
    [c.ckA, c.ckB]
  }

  function DecodeCheckSum(b: seq<byte>): CheckSum
    requires |b| == 2
  {
    CheckSum(b[0], b[1])
  }

  /** One step of the running sums. */
  function Accumulate(c: CheckSum, x: byte): CheckSum
  {
    var a := (c.ckA + x) % 0x100;
    CheckSum(a, (c.ckB + a) % 0x100)
  }

  /** The checksum of a window, byte by byte from the first. CK_A ends as
      the plain byte sum of the window modulo 256. */
  function Fletcher(w: seq<byte>): (c: CheckSum)
    ensures c.ckA == Sum(w) % 0x100
    decreases |w|
  {
    if w == [] then CheckSum(0, 0)
    else
      var init, x := w[..|w| - 1], w[|w| - 1];
      assert w == init + [x];
      SumSnoc(init, x);
      ModAdd(Sum(init), x);
      Accumulate(Fletcher(init), x)
  }

  /** Reference definitions: CK_A is the plain sum of the window, CK_B the sum
      of every byte weighted by how many prefix sums it enters (the first of
      n bytes n times, the last once). */
  function Sum(w: seq<byte>): nat
  {
    if w == [] then 0 else w[0] + Sum(w[1..])
  }

  function WeightedSum(w: seq<byte>): nat
  {
    if w == [] then 0 else |w| * w[0] + WeightedSum(w[1..])
  }

  lemma {:induction false} SumSnoc(w: seq<byte>, x: byte)
    ensures Sum(w + [x]) == Sum(w) + x
  {
    if w != [] {
      assert (w + [x])[1..] == w[1..] + [x];
      SumSnoc(w[1..], x);
    }
  }

  lemma {:induction false} WeightedSumSnoc(w: seq<byte>, x: byte)
    ensures WeightedSum(w + [x]) == WeightedSum(w) + Sum(w) + x
  {
    if w == [] {
      assert WeightedSum([x]) == x;
    } else {
      assert (w + [x])[1..] == w[1..] + [x];
      WeightedSumSnoc(w[1..], x);
      assert |w + [x]| * w[0] == |w| * w[0] + w[0];
    }
  }

  /** The running-sum algorithm computes the closed form modulo 256. */
  lemma {:induction false} FletcherClosedForm(w: seq<byte>)
    ensures Fletcher(w) == CheckSum(Sum(w) % 0x100, WeightedSum(w) % 0x100)
    decreases |w|
  {
    if w != [] {
      var init, x := w[..|w| - 1], w[|w| - 1];
      assert w == init + [x];
      FletcherClosedForm(init);
      ClosedFormSnoc(init, x);
    }
  }

  /** One more byte keeps the running sums equal to the closed form. */
  lemma ClosedFormSnoc(init: seq<byte>, x: byte)
    requires Fletcher(init) == CheckSum(Sum(init) % 0x100, WeightedSum(init) % 0x100)
    ensures Fletcher(init + [x]) == CheckSum(Sum(init + [x]) % 0x100, WeightedSum(init + [x]) % 0x100)
  {
    assert (init + [x])[..|init|] == init;
    SumSnoc(init, x);
    WeightedSumSnoc(init, x);
    ClosedFormStep(Sum(init), WeightedSum(init), x);
  }

  /** One running-sum step on sums kept modulo 256. */
  lemma ClosedFormStep(s: nat, ws: nat, x: byte)
    ensures Accumulate(CheckSum(s % 0x100, ws % 0x100), x)
         == CheckSum((s + x) % 0x100, (ws + s + x) % 0x100)
  {
    ModAdd(s, x);
    ModAdd(ws, (s + x) % 0x100);
    ModAdd(s + x, ws);
  }

  /** Sum after one byte of the window is replaced. */
  lemma {:induction false} SumUpdate(w: seq<byte>, j: nat, v: byte)
    requires j < |w|
    ensures Sum(w[j := v]) == Sum(w) - w[j] + v
  {
    if j > 0 {
      assert w[j := v][1..] == w[1..][j - 1 := v];
      SumUpdate(w[1..], j - 1, v);
    }
  }

  /** Any change to a single byte of the window changes CK_A, so a single
      corrupted byte (in particular a single flipped bit) is always detected. */
  lemma SingleByteChangeDetected(w: seq<byte>, j: nat, v: byte)
    requires j < |w| && v != w[j]
    ensures Fletcher(w[j := v]).ckA != Fletcher(w).ckA
  {
    FletcherClosedForm(w);
    FletcherClosedForm(w[j := v]);
    SumUpdate(w, j, v);
    ModShiftChanges(Sum(w), v - w[j]);
  }

  /** The checksum of a concatenation continues from the checksum of its
      first part. */
  lemma {:induction false} FletcherAppend(u: seq<byte>, w: seq<byte>)
    ensures Fletcher(u + w) == FletcherFrom(Fletcher(u), w)
    decreases |w|
  {
    if w != [] {
      assert (u + w)[..|u + w| - 1] == u + w[..|w| - 1];
      FletcherAppend(u, w[..|w| - 1]);
    } else {
      assert u + w == u;
    }
  }

  /** Continues the running sums from `c` over `w`. */
  function FletcherFrom(c: CheckSum, w: seq<byte>): CheckSum
    decreases |w|
  {
    if w == [] then c
    else Accumulate(FletcherFrom(c, w[..|w| - 1]), w[|w| - 1])
  }

  lemma ModAdd(p: int, q: int)
    ensures (p % 0x100 + q) % 0x100 == (p + q) % 0x100
  {
    var k := p / 0x100;
    assert p == 0x100 * k + p % 0x100;
    ModMultiple(p % 0x100 + q, k);
  }

  lemma ModMultiple(x: int, k: int)
    ensures (x + 0x100 * k) % 0x100 == x % 0x100
  {
    var y := x + 0x100 * k;
    assert y == 0x100 * (y / 0x100) + y % 0x100;
    assert x == 0x100 * (x / 0x100) + x % 0x100;
    assert 0x100 * (y / 0x100 - x / 0x100 - k) == x % 0x100 - y % 0x100;
  }

  lemma ModShiftChanges(p: int, d: int)
    requires -0x100 < d < 0x100 && d != 0
    ensures (p + d) % 0x100 != p % 0x100
  {
    var y := p + d;
    assert y == 0x100 * (y / 0x100) + y % 0x100;
    assert p == 0x100 * (p / 0x100) + p % 0x100;
    assert 0x100 * (y / 0x100 - p / 0x100) == d + p % 0x100 - y % 0x100;
  }
}
