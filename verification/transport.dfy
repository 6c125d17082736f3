/** The SPI device both drivers talk through (`SPIdev`, whose source is not
    part of this model). A transfer is one synchronous full-duplex exchange:
    n bytes go out and n bytes come back. The device's answers are an input
    of the model: `replies[k]` is what the chip clocks back during the k-th
    transfer, cut or zero-padded to the transfer's length. Every transmitted
    frame is appended to `sent`, so a driver's effect on the bus is stated as
    the frames it adds there. */
module Transport {
  import opened Bytes

  /** `s` cut to `n` bytes, or zero-padded to `n` bytes. */
  function Fit(s: seq<byte>, n: nat): (r: seq<byte>)
    ensures |r| == n
    ensures forall i :: 0 <= i < n ==> r[i] == (if i < |s| then s[i] else 0)
  {
    if |s| >= n then s[..n] else s + Zeros(n - |s|)
  }

  class SpiDev {
    /** What the chip answers, transfer by transfer. */
    const replies: seq<seq<byte>>
    /** Every frame transmitted so far, in order. */
    var sent: seq<seq<byte>>

    constructor (replies: seq<seq<byte>>)
      ensures this.replies == replies && sent == []
    {
      this.replies := replies;
      sent := [];
    }

    /** The reply to the k-th transfer when it is n bytes long. */
    function Answer(k: nat, n: nat): (r: seq<byte>)
      ensures |r| == n
      ensures k >= |replies| ==> r == Zeros(n)
    {
      Fit(if k < |replies| then replies[k] else [], n)
    }

    /** One exchange: transmits `tx`, returns as many bytes as were sent. */
    method Transfer(tx: seq<byte>) returns (rx: seq<byte>)
      modifies this
      ensures sent == old(sent) + [tx]
      ensures rx == Answer(|old(sent)|, |tx|)
    {
      rx := Answer(|sent|, |tx|);
      sent := sent + [tx];
    }
  }
}
