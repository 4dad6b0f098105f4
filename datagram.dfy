/**
 Bytes, datagrams and the size limit of one UDP datagram over IPv4.
 */
module Datagram {

  /** One octet of an encoded frame. */
  newtype byte = b: int | 0 <= b < 256

  /** The largest value of the 16-bit Total Length field (section 3.1 of RFC 791). */
  const IPv4MaxTotalLength: nat := 65535
  /** The IPv4 header without options (section 3.1 of RFC 791). */
  const IPv4HeaderLength: nat := 20
  /** The fixed UDP header (RFC 768). */
  const UdpHeaderLength: nat := 8

  /** The largest payload one UDP datagram over IPv4 can carry: 65507 bytes. */
  const MaxUdpPayload: nat := IPv4MaxTotalLength - IPv4HeaderLength - UdpHeaderLength

  /** The bytes of a list of datagrams joined in list order: what a receiver
      gets back by appending the fragments of one payload. */
  function Flatten(chunks: seq<seq<byte>>): seq<byte>
  {
    if chunks == [] then [] else chunks[0] + Flatten(chunks[1..])
  }

  /** Flattening distributes over concatenation of the lists. */
  lemma {:induction false} FlattenAppend(a: seq<seq<byte>>, b: seq<seq<byte>>)
    ensures Flatten(a + b) == Flatten(a) + Flatten(b)
  {
    if a != [] {
      assert (a + b)[1..] == a[1..] + b;
      FlattenAppend(a[1..], b);
    } else {
      assert a + b == b;
    }
  }
}
