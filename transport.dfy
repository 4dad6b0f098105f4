/**
 The transport shared by every script: `UDPConnection`, a datagram socket bound
 to one destination, that hands each payload to the kernel as one datagram.
 */
module Transport {
  import opened Datagram

  class Udp {
    /** The destination given at construction. */
    const targetIp: string
    const port: int
    /** Every datagram handed to the socket so far, in call order. */
    var sent: seq<seq<byte>>
    /** False once `close` has run. */
    var open: bool

    constructor (targetIp: string, port: int)
      ensures this.targetIp == targetIp && this.port == port
      ensures sent == [] && open
    {
      this.targetIp := targetIp;
      this.port := port;
      sent := [];
      open := true;
    }

    /** `send(data)`: one `sendto` of the whole of `data`. The kernel refuses
        (OSError) a datagram on a closed socket or one longer than the largest
        UDP payload; then nothing is sent and `ok` is false. */
    method Send(data: seq<byte>) returns (ok: bool)
      modifies this
      ensures ok <==> old(open) && |data| <= MaxUdpPayload
      ensures sent == if ok then old(sent) + [data] else old(sent)
      ensures open == old(open)
    {
      ok := open && |data| <= MaxUdpPayload;
      if ok {
        sent := sent + [data];
      }
    }

    /** `close()`: releases the socket; closing twice is harmless. */
    method Close()
      modifies this
      ensures !open && sent == old(sent)
    {
      open := false;
    }
  }
}
