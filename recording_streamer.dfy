/**
 The timer-driven streamer that also records (src/camera_epl.py): each cycle
 captures a frame, encodes it to JPEG at quality 10, writes it to the video
 writer, sends every 65507-byte fragment of the JPEG bytes, and starts a timer
 for the next cycle; `cleanup` releases everything and exits.
 */
module RecordingStreamer {
  import opened Datagram
  import opened Fragmenter
  import opened SendPolicy
  import opened Transport
  import opened Effects

  /** The JPEG quality `capture_and_send` passes to the encoder. */
  const JpegQuality: int := 10

  /** The effects of one `capture_and_send` whose encoder produced `imageData`
      and whose new timer is number `timer`. */
  function CycleEffects(imageData: seq<byte>, timer: nat): seq<Event>
  {
    [Capture, Encode(JpegQuality), Convert, Record] + SendAll(FragmentAlways(imageData)) + [Schedule(timer)]
  }

  /** The effects of `cleanup`, given the pending timer and whether a video
      writer is set. */
  function CleanupEffects(timer: Option<nat>, writerSet: bool): seq<Event>
  {
    (if timer.Some? then [CancelTimer(timer.value)] else [])
    + ([CloseCamera] + ((if writerSet then [ReleaseWriter] else []) + [CloseSocket, Exit(0)]))
  }

  /** The effects of one cycle as the source is written: `np` is not imported,
      so `np.array(image)` raises NameError right after encoding. */
  function CycleEffectsAsWritten(imageData: seq<byte>): seq<Event>
  {
    [Capture, Encode(JpegQuality), Crash("NameError")]
  }

  class System {
    const udp: Udp
    /** The camera is open until `cleanup` stops it. */
    var cameraOpen: bool
    /** `self.video_writer` is set, and not yet released. */
    var writerSet: bool
    var writerOpen: bool
    /** `self.timer`: the most recently started timer, by number. */
    var timer: Option<nat>
    /** How many timers have been started; the next one gets this number. */
    var timersStarted: nat
    var exited: bool
    /** Every effect so far, in order. */
    var log: seq<Event>

    ghost predicate Valid()
      reads this, udp
    {
      && (!exited ==> udp.open && cameraOpen)
      && (timer.Some? ==> timer.value < timersStarted)
    }

    /** `System(...)`: takes the connection, opens the video writer, and has no timer yet. */
    constructor (udp: Udp)
      requires udp.open
      ensures Valid() && this.udp == udp
      ensures cameraOpen && writerSet && writerOpen && !exited
      ensures timer == None && timersStarted == 0 && log == []
    {
      this.udp := udp;
      cameraOpen := true;
      writerSet := true;
      writerOpen := true;
      timer := None;
      timersStarted := 0;
      exited := false;
      log := [];
    }

    /** `capture_and_send`, with the JPEG bytes of the captured frame given as
        `imageData`: the frame is recorded, then every chunk of
        `split_data(imageData, 65507)` is sent in order (none when `imageData`
        is empty), and only then is the next cycle's timer started, which
        becomes `self.timer`. */
    method CaptureAndSend(imageData: seq<byte>)
      requires Valid() && !exited
      modifies this, udp
      ensures Valid() && !exited
      ensures log == old(log) + CycleEffects(imageData, old(timersStarted))
      ensures udp.sent == old(udp.sent) + FragmentAlways(imageData)
      ensures timer == Some(old(timersStarted)) && timersStarted == old(timersStarted) + 1
      ensures cameraOpen == old(cameraOpen) && writerSet == old(writerSet) && writerOpen == old(writerOpen)
    {
      ghost var oldLog := log;
      var effects := log + [Capture, Encode(JpegQuality), Convert, Record];
      ghost var start := effects;
      var chunks: seq<seq<byte>> := [];
      if |imageData| > 0 {
        chunks := SplitData(imageData, ChunkSize).chunks;
      }
      assert chunks == FragmentAlways(imageData);
      var i := 0;
      while i < |chunks|
        invariant 0 <= i <= |chunks|
        invariant udp.open
        invariant udp.sent == old(udp.sent) + chunks[..i]
        invariant effects == start + SendAll(chunks[..i])
        modifies udp
      {
        ghost var before := udp.sent;
        assert |chunks[i]| <= MaxUdpPayload;
        var ok := udp.Send(chunks[i]);
        assert ok && udp.sent == before + [chunks[i]];
        effects := effects + [Send(chunks[i])];
        assert chunks[..i + 1] == chunks[..i] + [chunks[i]];
        SendAllSnoc(chunks, i);
        i := i + 1;
      }
      assert chunks[..i] == chunks;
      var t := timersStarted;
      ghost var cycle := CycleEffects(imageData, t);
      assert effects + [Schedule(t)] == oldLog + cycle by {
        ghost var p, q := [Capture, Encode(JpegQuality), Convert, Record], SendAll(chunks);
        assert cycle == p + q + [Schedule(t)];
        assert effects == oldLog + p + q;
        SeqAssoc(oldLog, p, q, [Schedule(t)]);
      }
      log := effects + [Schedule(t)];
      timer := Some(t);
      timersStarted := t + 1;
    }

    /** `cleanup`: cancels the pending timer if there is one, stops the camera,
        releases the video writer if one is set, closes the socket and exits
        with status 0. */
    method Cleanup()
      requires Valid() && !exited
      modifies this, udp
      ensures Valid() && exited
      ensures log == old(log) + CleanupEffects(old(timer), old(writerSet))
      ensures !cameraOpen && !writerOpen && !udp.open && udp.sent == old(udp.sent)
      ensures timer == old(timer) && writerSet == old(writerSet) && timersStarted == old(timersStarted)
    {
      ghost var e := CleanupEffects(timer, writerSet);
      ghost var oldLog := log;
      if timer.Some? {
        log := log + [CancelTimer(timer.value)];
      }
      cameraOpen := false;
      log := log + [CloseCamera];
      writerOpen := false;
      if writerSet {
        log := log + [ReleaseWriter];
      }
      udp.Close();
      log := log + [CloseSocket];
      log := log + [Exit(0)];
      exited := true;
      assert log == oldLog + e;
    }
  }

  /** One cycle hands the socket exactly the fragments of `imageData`, which
      together rebuild it, none empty and none over 65507 bytes: each chunk one
      datagram, in index order. */
  lemma CycleSendsFragments(imageData: seq<byte>, timer: nat)
    ensures Datagrams(CycleEffects(imageData, timer)) == FragmentAlways(imageData)
    ensures Flatten(Datagrams(CycleEffects(imageData, timer))) == imageData
    ensures forall d :: d in Datagrams(CycleEffects(imageData, timer)) ==> 0 < |d| <= MaxUdpPayload
  {
    SendPhase([Capture, Encode(JpegQuality), Convert, Record], FragmentAlways(imageData), [Schedule(timer)]);
  }

  /** Within a cycle the frame is recorded before any chunk is sent, and the
      next capture is scheduled only after the last chunk: the Schedule event
      is the cycle's last event and its only Schedule. */
  lemma CycleOrder(imageData: seq<byte>, timer: nat)
    ensures var e := CycleEffects(imageData, timer);
      && e[2] == Convert && e[3] == Record
      && (forall k :: 0 <= k < |e| && e[k].Send? ==> 3 < k < |e| - 1)
      && e[|e| - 1] == Schedule(timer)
      && (forall k :: 0 <= k < |e| - 1 ==> !e[k].Schedule?)
  {
  }

  /** An empty payload sends no datagram, yet the next capture is still scheduled. */
  lemma EmptyPayloadStillSchedules(timer: nat)
    ensures CycleEffects([], timer) == [Capture, Encode(JpegQuality), Convert, Record, Schedule(timer)]
    ensures Datagrams(CycleEffects([], timer)) == []
  {
    SendPhase([Capture, Encode(JpegQuality), Convert, Record], [], [Schedule(timer)]);
  }

  /** `cleanup` cancels the timer, first, exactly when one is set, and
      releases the writer, just before the socket, exactly when one is set. */
  lemma CleanupReleasesWhatIsSet(timer: Option<nat>, writerSet: bool)
    ensures timer.Some? ==> CleanupEffects(timer, writerSet)[0] == CancelTimer(timer.value)
    ensures timer.None? ==> forall ev :: ev in CleanupEffects(timer, writerSet) ==> !ev.CancelTimer?
    ensures writerSet ==> CleanupEffects(timer, writerSet)[|CleanupEffects(timer, writerSet)| - 3] == ReleaseWriter
    ensures !writerSet ==> ReleaseWriter !in CleanupEffects(timer, writerSet)
  {
    var tail := [CloseSocket, Exit(0)];
    var fromWriter := if writerSet then [ReleaseWriter] + tail else tail;
    var fromCamera := [CloseCamera] + fromWriter;
    if timer.Some? {
      assert [CancelTimer(timer.value)] + fromCamera == CleanupEffects(timer, writerSet);
    } else {
      assert fromCamera == CleanupEffects(timer, writerSet);
    }
  }

  /** `cleanup` is an orderly shutdown, whatever the timer and writer state. */
  lemma CleanupIsOrderly(timer: Option<nat>, writerSet: bool)
    ensures OrderlyShutdown(CleanupEffects(timer, writerSet))
  {
    var tail := [CloseSocket, Exit(0)];
    SocketThenExit();
    var fromWriter := if writerSet then [ReleaseWriter] + tail else tail;
    if writerSet {
      ReleaseBefore(ReleaseWriter, tail);
    }
    var fromCamera := [CloseCamera] + fromWriter;
    ReleaseBefore(CloseCamera, fromWriter);
    if timer.Some? {
      var e := [CancelTimer(timer.value)] + fromCamera;
      ReleaseBefore(CancelTimer(timer.value), fromCamera);
      assert IsCameraRelease(e[1]);
      assert e == CleanupEffects(timer, writerSet);
    } else {
      assert IsCameraRelease(fromCamera[0]);
      assert fromCamera == CleanupEffects(timer, writerSet);
    }
  }

  /** As written, a cycle ends in NameError before anything is recorded, sent
      or scheduled, so no frame ever leaves the device; the intended cycle
      sends any non-empty frame. */
  lemma AsWrittenCycleLosesFrame(imageData: seq<byte>, timer: nat)
    requires |imageData| > 0
    ensures Datagrams(CycleEffectsAsWritten(imageData)) == []
    ensures forall k :: 0 <= k < 3 ==> !CycleEffectsAsWritten(imageData)[k].Schedule?
    ensures Datagrams(CycleEffects(imageData, timer)) != []
  {
    CycleSendsFragments(imageData, timer);
    DatagramsOfNoSends(CycleEffectsAsWritten(imageData));
  }
}
