/**
 The timer-driven streamer without recording (src/cam_test.py): each cycle
 captures a frame, encodes it to JPEG at quality 10, sends every 65507-byte
 fragment of the JPEG bytes, and starts a timer for the next cycle; `cleanup`
 releases the timer, camera and socket and exits.
 */
module PlainStreamer {
  import opened Datagram
  import opened Fragmenter
  import opened SendPolicy
  import opened Transport
  import opened Effects

  /** The JPEG quality `capture_and_send` passes to the encoder. */
  const JpegQuality: int := 10

  /** The effects of one `capture_and_send` whose encoder produced `imageData`
      and whose new timer is number `timer`. */
  function CycleEffects(imageData: seq<byte>, timer: nat): seq<Event>
  {
    [Capture, Encode(JpegQuality)] + SendAll(FragmentAlways(imageData)) + [Schedule(timer)]
  }

  /** The effects of `cleanup`, given the pending timer. */
  function CleanupEffects(timer: Option<nat>): seq<Event>
  {
    (if timer.Some? then [CancelTimer(timer.value)] else []) + [CloseCamera, CloseSocket, Exit(0)]
  }

  class System {
    const udp: Udp
    /** The camera is open until `cleanup` stops it. */
    var cameraOpen: bool
    /** `self.timer`: the most recently started timer, by number. */
    var timer: Option<nat>
    /** How many timers have been started; the next one gets this number. */
    var timersStarted: nat
    var exited: bool
    /** Every effect so far, in order. */
    var log: seq<Event>

    ghost predicate Valid()
      reads this, udp
    {
      && (!exited ==> udp.open && cameraOpen)
      && (timer.Some? ==> timer.value < timersStarted)
    }

    /** `System(udpConnection, camera)`: no timer yet. */
    constructor (udp: Udp)
      requires udp.open
      ensures Valid() && this.udp == udp
      ensures cameraOpen && !exited
      ensures timer == None && timersStarted == 0 && log == []
    {
      this.udp := udp;
      cameraOpen := true;
      timer := None;
      timersStarted := 0;
      exited := false;
      log := [];
    }

    /** `capture_and_send`, with the JPEG bytes of the captured frame given as
        `imageData`: every chunk of `split_data(imageData, 65507)` is sent in
        order (none when `imageData` is empty), and only then is the next
        cycle's timer started, which becomes `self.timer`. */
    method CaptureAndSend(imageData: seq<byte>)
      requires Valid() && !exited
      modifies this, udp
      ensures Valid() && !exited
      ensures log == old(log) + CycleEffects(imageData, old(timersStarted))
      ensures udp.sent == old(udp.sent) + FragmentAlways(imageData)
      ensures timer == Some(old(timersStarted)) && timersStarted == old(timersStarted) + 1
      ensures cameraOpen == old(cameraOpen)
    {
      ghost var oldLog := log;
      var effects := log + [Capture, Encode(JpegQuality)];
      ghost var start := effects;
      var chunks: seq<seq<byte>> := [];
      if |imageData| > 0 {
        chunks := SplitData(imageData, ChunkSize).chunks;
      }
      assert chunks == FragmentAlways(imageData);
      var i := 0;
      while i < |chunks|
        invariant 0 <= i <= |chunks|
        invariant udp.open
        invariant udp.sent == old(udp.sent) + chunks[..i]
        invariant effects == start + SendAll(chunks[..i])
        modifies udp
      {
        ghost var before := udp.sent;
        assert |chunks[i]| <= MaxUdpPayload;
        var ok := udp.Send(chunks[i]);
        assert ok && udp.sent == before + [chunks[i]];
        effects := effects + [Send(chunks[i])];
        assert chunks[..i + 1] == chunks[..i] + [chunks[i]];
        SendAllSnoc(chunks, i);
        i := i + 1;
      }
      assert chunks[..i] == chunks;
      var t := timersStarted;
      ghost var cycle := CycleEffects(imageData, t);
      assert effects + [Schedule(t)] == oldLog + cycle by {
        ghost var p, q := [Capture, Encode(JpegQuality)], SendAll(chunks);
        assert cycle == p + q + [Schedule(t)];
        assert effects == oldLog + p + q;
        SeqAssoc(oldLog, p, q, [Schedule(t)]);
      }
      log := effects + [Schedule(t)];
      timer := Some(t);
      timersStarted := t + 1;
    }

    /** `cleanup`: cancels the pending timer if there is one, stops the camera,
        closes the socket and exits with status 0. */
    method Cleanup()
      requires Valid() && !exited
      modifies this, udp
      ensures Valid() && exited
      ensures log == old(log) + CleanupEffects(old(timer))
      ensures !cameraOpen && !udp.open && udp.sent == old(udp.sent)
      ensures timer == old(timer) && timersStarted == old(timersStarted)
    {
      ghost var e := CleanupEffects(timer);
      ghost var oldLog := log;
      if timer.Some? {
        log := log + [CancelTimer(timer.value)];
      }
      cameraOpen := false;
      log := log + [CloseCamera];
      udp.Close();
      log := log + [CloseSocket];
      log := log + [Exit(0)];
      exited := true;
      assert log == oldLog + e;
    }
  }

  /** One cycle hands the socket exactly the fragments of `imageData`, which
      together rebuild it, none empty and none over 65507 bytes, in index order. */
  lemma CycleSendsFragments(imageData: seq<byte>, timer: nat)
    ensures Datagrams(CycleEffects(imageData, timer)) == FragmentAlways(imageData)
    ensures Flatten(Datagrams(CycleEffects(imageData, timer))) == imageData
    ensures forall d :: d in Datagrams(CycleEffects(imageData, timer)) ==> 0 < |d| <= MaxUdpPayload
  {
    SendPhase([Capture, Encode(JpegQuality)], FragmentAlways(imageData), [Schedule(timer)]);
  }

  /** A cycle starts a timer for the next capture only after its last chunk,
      whether or not anything was sent, and it records nothing: its only
      effects are capture, encode, sends and the one Schedule at the end. */
  lemma CycleOrder(imageData: seq<byte>, timer: nat)
    ensures var e := CycleEffects(imageData, timer);
      && e[|e| - 1] == Schedule(timer)
      && (forall k :: 0 <= k < |e| - 1 ==> !e[k].Schedule?)
      && (forall k :: 0 <= k < |e| ==> e[k].Capture? || e[k].Encode? || e[k].Send? || e[k].Schedule?)
      && (forall k :: 0 <= k < |e| ==> !e[k].Record?)
  {
  }

  /** An empty payload sends no datagram, yet the next capture is still scheduled. */
  lemma EmptyPayloadStillSchedules(timer: nat)
    ensures CycleEffects([], timer) == [Capture, Encode(JpegQuality), Schedule(timer)]
    ensures Datagrams(CycleEffects([], timer)) == []
  {
    SendPhase([Capture, Encode(JpegQuality)], [], [Schedule(timer)]);
  }

  /** `cleanup` is an orderly shutdown; it cancels the pending timer, first,
      when one is set, and cancels no timer at all when none is. */
  lemma CleanupIsOrderly(timer: Option<nat>)
    ensures OrderlyShutdown(CleanupEffects(timer))
    ensures timer.Some? ==> CleanupEffects(timer)[0] == CancelTimer(timer.value)
    ensures timer.None? ==> forall ev :: ev in CleanupEffects(timer) ==> !ev.CancelTimer?
  {
    var tail := [CloseSocket, Exit(0)];
    SocketThenExit();
    var fromCamera := [CloseCamera] + tail;
    ReleaseBefore(CloseCamera, tail);
    var e := if timer.Some? then [CancelTimer(timer.value)] + fromCamera else fromCamera;
    if timer.Some? {
      ReleaseBefore(CancelTimer(timer.value), fromCamera);
      assert IsCameraRelease(e[1]);
    } else {
      assert IsCameraRelease(e[0]);
    }
    assert e == CleanupEffects(timer);
  }
}
