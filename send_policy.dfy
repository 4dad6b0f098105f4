/**
 The two per-payload send policies of the scripts, each as the list of
 datagrams one encoded payload turns into.
 */
module SendPolicy {
  import opened Datagram
  import opened Fragmenter

  /** The chunk size the fragmenting scripts pass to `split_data`. */
  const ChunkSize: int := 65507
  /** The size limit the gating scripts compare a frame against. */
  const GateLimit: int := 65507

  /** Fragment-always: a non-empty payload is sent as every chunk of
      `split_data(payload, 65507)`, in order; an empty one is not sent. */
  function FragmentAlways(payload: seq<byte>): (ds: seq<seq<byte>>)
    ensures Flatten(ds) == payload
    ensures |ds| == (|payload| + MaxUdpPayload - 1) / MaxUdpPayload
    ensures forall k :: 0 <= k < |ds| ==> 0 < |ds[k]| <= MaxUdpPayload
    ensures forall k :: 0 <= k < |ds| - 1 ==> |ds[k]| == MaxUdpPayload
    ensures ds == [] <==> payload == []
  {
    if |payload| > 0 then SplitData(payload, ChunkSize).chunks else []
  }

  /** Gate-and-drop: a payload of at most 65507 bytes is sent whole as one
      datagram, a longer one is not sent at all. */
  function GateAndDrop(payload: seq<byte>): seq<seq<byte>>
  {
    if |payload| <= GateLimit then [payload] else []
  }

  /** Gate-and-drop applied to each payload of a run, the datagrams joined in order. */
  function GateEach(payloads: seq<seq<byte>>): seq<seq<byte>>
  {
    if payloads == [] then []
    else GateEach(payloads[..|payloads| - 1]) + GateAndDrop(payloads[|payloads| - 1])
  }

  /** Every datagram of a gated run is one of the run's payloads, unchanged and
      at most 65507 bytes long, and every payload that fits is sent; there are
      never more datagrams than payloads. */
  lemma {:induction false} GateEachSendsWholePayloads(payloads: seq<seq<byte>>)
    ensures |GateEach(payloads)| <= |payloads|
    ensures forall d :: d in GateEach(payloads) ==> d in payloads && |d| <= MaxUdpPayload
    ensures forall p :: p in payloads && |p| <= MaxUdpPayload ==> p in GateEach(payloads)
    decreases |payloads|
  {
    if payloads != [] {
      var init := payloads[..|payloads| - 1];
      GateEachSendsWholePayloads(init);
      forall d | d in GateEach(payloads)
        ensures d in payloads && |d| <= MaxUdpPayload
      {
        if d in GateEach(init) {
          assert d in init;
        }
      }
      forall p | p in payloads && |p| <= MaxUdpPayload
        ensures p in GateEach(payloads)
      {
        if p != payloads[|payloads| - 1] {
          assert p in init;
        }
      }
    }
  }

  /** Gate-and-drop sends at most one datagram, never alters the bytes, sends
      exactly when the payload fits one UDP datagram (65507 bytes inclusive),
      and so never hands the socket a datagram it would refuse. */
  lemma GateAndDropSendsWholeOrNothing(payload: seq<byte>)
    ensures |GateAndDrop(payload)| <= 1
    ensures GateAndDrop(payload) == [payload] <==> |payload| <= MaxUdpPayload
    ensures GateAndDrop(payload) == [] <==> |payload| > MaxUdpPayload
    ensures forall d :: d in GateAndDrop(payload) ==> d == payload && |d| <= MaxUdpPayload
  {
  }

  /** A payload that fits one datagram is sent the same way by both policies,
      as one datagram with its bytes unchanged, as long as it is not empty. */
  lemma PoliciesAgreeOnSmallPayloads(payload: seq<byte>)
    requires 0 < |payload| <= MaxUdpPayload
    ensures FragmentAlways(payload) == GateAndDrop(payload) == [payload]
  {
    var ds := FragmentAlways(payload);
    assert |ds| == 1 by {
      DivBetween(|payload| + MaxUdpPayload - 1, MaxUdpPayload, 1);
    }
    assert ds[1..] == [] && Flatten(ds[1..]) == [];
    assert Flatten(ds) == ds[0] + Flatten(ds[1..]) == ds[0] + [];
    assert ds[0] + [] == ds[0] == payload;
    assert ds == [ds[0]];
  }

  /** On a payload longer than one datagram the policies part: fragment-always
      still delivers every byte, in at least two datagrams, while gate-and-drop
      sends nothing. */
  lemma PoliciesDifferOnLargePayloads(payload: seq<byte>)
    requires |payload| > MaxUdpPayload
    ensures GateAndDrop(payload) == []
    ensures |FragmentAlways(payload)| >= 2 && Flatten(FragmentAlways(payload)) == payload
  {
  }

  /** On the empty payload the policies part too: fragment-always sends no
      datagram, gate-and-drop sends one empty datagram. */
  lemma PoliciesDifferOnEmptyPayload()
    ensures FragmentAlways([]) == []
    ensures GateAndDrop([]) == [[]]
  {
  }
}
