/**
 The loop-driven streamer on the legacy camera API (camera_epl.py): the camera
 starts recording to a file once, then each loop iteration captures a JPEG
 frame, sends it as one datagram if it fits, calls the camera's `saveFrame`
 hook and sleeps; an interrupt leads to `cleanup`, which stops the recording,
 closes the camera and the socket and exits.
 */
module PiCameraStreamer {
  import opened Datagram
  import opened SendPolicy
  import opened Transport
  import opened Effects

  class Camera {
    const fps: nat
    const resolution: int
    /** The connection `startStreaming` was given, if any. */
    var udpConnection: Udp?
    var recording: bool
    var open: bool

    /** `Camera(fps, resolution)`: an open camera, not yet recording, with no
        connection. The loop sleeps `1 / fps`, so the frame rate must be positive. */
    constructor (fps: nat, resolution: int)
      requires fps > 0
      ensures this.fps == fps && this.resolution == resolution
      ensures udpConnection == null && !recording && open
    {
      this.fps := fps;
      this.resolution := resolution;
      udpConnection := null;
      recording := false;
      open := true;
    }

    /** `saveFrame`: does nothing; with no modifies clause it can change nothing. */
    method SaveFrame(frame: seq<byte>)
    {
    }

    /** `startStreaming`: keeps the connection and starts recording to the video file. */
    method StartStreaming(udp: Udp)
      modifies this
      ensures udpConnection == udp && recording && open == old(open)
    {
      udpConnection := udp;
      recording := true;
    }

    /** `stop`: stops the recording, then closes the camera. */
    method Stop()
      modifies this
      ensures !recording && !open && udpConnection == old(udpConnection)
    {
      recording := false;
      open := false;
    }
  }

  /** The effects of one loop iteration whose captured JPEG is `frame`. */
  function IterationEffects(frame: seq<byte>): seq<Event>
  {
    [Capture] + SendAll(GateAndDrop(frame)) + [SaveFrame, Pause]
  }

  /** The effects of one iteration per frame, in order. */
  function Iterations(frames: seq<seq<byte>>): seq<Event>
  {
    if frames == [] then []
    else Iterations(frames[..|frames| - 1]) + IterationEffects(frames[|frames| - 1])
  }

  /** The effects of `cleanup`: `camera.stop()` (stop recording, close), then
      the socket, then the exit. */
  function CleanupEffects(): seq<Event>
  {
    [StopRecording, CloseCamera, CloseSocket, Exit(0)]
  }

  /** The effects of `run` when the interrupt arrives after the iterations for
      `frames`: recording starts, the iterations run, and `cleanup` follows. */
  function RunEffects(frames: seq<seq<byte>>): seq<Event>
  {
    [StartRecording] + Iterations(frames) + CleanupEffects()
  }

  /** Running one more iteration appends its effects and its datagrams. */
  lemma IterationsSnoc(frames: seq<seq<byte>>, i: nat)
    requires i < |frames|
    ensures Iterations(frames[..i + 1]) == Iterations(frames[..i]) + IterationEffects(frames[i])
    ensures GateEach(frames[..i + 1]) == GateEach(frames[..i]) + GateAndDrop(frames[i])
  {
    assert frames[..i + 1][..i] == frames[..i];
  }

  class System {
    const udp: Udp
    const camera: Camera
    var exited: bool
    /** Every effect so far, in order. */
    var log: seq<Event>

    ghost predicate Valid()
      reads this, udp, camera
    {
      !exited ==> udp.open && camera.open
    }

    /** `System(udpConnection, camera)`. */
    constructor (udp: Udp, camera: Camera)
      requires udp.open && camera.open
      ensures Valid() && this.udp == udp && this.camera == camera
      ensures !exited && log == []
    {
      this.udp := udp;
      this.camera := camera;
      exited := false;
      log := [];
    }

    /** One iteration of the `while True` loop of `run`, with the captured JPEG
        given as `frame`: the frame is sent whole as one datagram when it is at
        most 65507 bytes long and not at all otherwise, then `saveFrame` is
        called whether or not it was sent, then the loop sleeps. */
    method RunOnce(frame: seq<byte>)
      requires Valid() && !exited
      modifies this, udp
      ensures Valid() && !exited
      ensures log == old(log) + IterationEffects(frame)
      ensures udp.sent == old(udp.sent) + GateAndDrop(frame)
    {
      ghost var oldLog := log;
      log := log + [Capture];
      if |frame| <= GateLimit {
        var ok := udp.Send(frame);
        assert ok;
        log := log + [Send(frame)];
      }
      camera.SaveFrame(frame);
      log := log + [SaveFrame];
      log := log + [Pause];
      assert SendAll(GateAndDrop(frame)) == if |frame| <= GateLimit then [Send(frame)] else [];
    }

    /** `cleanup`: `camera.stop()` stops the recording and closes the camera,
        then the socket is closed and the process exits with status 0. */
    method Cleanup()
      requires Valid() && !exited
      modifies this, udp, camera
      ensures Valid() && exited
      ensures log == old(log) + CleanupEffects()
      ensures !camera.recording && !camera.open && !udp.open
      ensures udp.sent == old(udp.sent) && camera.udpConnection == old(camera.udpConnection)
    {
      camera.Stop();
      log := log + [StopRecording, CloseCamera];
      udp.Close();
      log := log + [CloseSocket];
      log := log + [Exit(0)];
      exited := true;
    }

    /** The `while True` loop of `run`, one iteration per frame of `frames`,
        until the interrupt arrives. */
    method Serve(frames: seq<seq<byte>>)
      requires Valid() && !exited
      modifies this, udp
      ensures Valid() && !exited
      ensures log == old(log) + Iterations(frames)
      ensures udp.sent == old(udp.sent) + GateEach(frames)
    {
      ghost var oldLog := log;
      var i := 0;
      while i < |frames|
        invariant 0 <= i <= |frames|
        invariant Valid() && !exited
        invariant log == oldLog + Iterations(frames[..i])
        invariant udp.sent == old(udp.sent) + GateEach(frames[..i])
      {
        ghost var done := Iterations(frames[..i]);
        RunOnce(frames[i]);
        IterationsSnoc(frames, i);
        SeqAssoc3(oldLog, done, IterationEffects(frames[i]));
        SeqAssoc3(old(udp.sent), GateEach(frames[..i]), GateAndDrop(frames[i]));
        i := i + 1;
      }
      assert frames[..i] == frames;
    }

    /** `run`: `startStreaming` hands the camera the connection and starts the
        recording, once, before the first capture; the loop then runs one
        iteration per frame of `frames`, and the interrupt that arrives after
        the last one is routed to `cleanup`. */
    method Run(frames: seq<seq<byte>>)
      requires Valid() && !exited
      modifies this, udp, camera
      ensures Valid() && exited
      ensures log == old(log) + RunEffects(frames)
      ensures udp.sent == old(udp.sent) + GateEach(frames)
      ensures camera.udpConnection == udp && !camera.recording && !camera.open && !udp.open
    {
      ghost var oldLog := log;
      camera.StartStreaming(udp);
      log := log + [StartRecording];
      Serve(frames);
      Cleanup();
      assert log == oldLog + RunEffects(frames) by {
        SeqAssoc(oldLog, [StartRecording], Iterations(frames), CleanupEffects());
      }
    }
  }

  /** One iteration sends at most one datagram, exactly the gate-and-drop of
      the frame: the whole frame when it is at most 65507 bytes long, nothing
      otherwise. The capture comes first, the send (if any) before `saveFrame`,
      and the pause last. */
  lemma IterationSendsAtMostOneDatagram(frame: seq<byte>)
    ensures Datagrams(IterationEffects(frame)) == GateAndDrop(frame)
    ensures |Datagrams(IterationEffects(frame))| <= 1
    ensures Datagrams(IterationEffects(frame)) == [frame] <==> |frame| <= MaxUdpPayload
    ensures var e := IterationEffects(frame);
      && e[0] == Capture && e[|e| - 2] == SaveFrame && e[|e| - 1] == Pause
      && (forall k :: 0 <= k < |e| && e[k].Send? ==> k == 1)
  {
    SendPhase([Capture], GateAndDrop(frame), [SaveFrame, Pause]);
  }

  /** One iteration captures once, calls `saveFrame` once and pauses once,
      and never starts a recording. */
  lemma IterationCounts(frame: seq<byte>)
    ensures multiset(IterationEffects(frame))[Capture] == 1
    ensures multiset(IterationEffects(frame))[SaveFrame] == 1
    ensures multiset(IterationEffects(frame))[Pause] == 1
    ensures StartRecording !in IterationEffects(frame)
  {
    var sends := SendAll(GateAndDrop(frame));
    assert forall k :: 0 <= k < |sends| ==> sends[k].Send?;
    assert Capture !in sends && SaveFrame !in sends && Pause !in sends && StartRecording !in sends;
    assert multiset(IterationEffects(frame)) == multiset([Capture]) + multiset(sends) + multiset([SaveFrame, Pause]);
  }

  /** Each iteration captures once, calls `saveFrame` once and pauses once,
      whether or not its frame was sent. */
  lemma {:induction false} EveryIterationSavesAndPauses(frames: seq<seq<byte>>)
    ensures multiset(Iterations(frames))[Capture] == |frames|
    ensures multiset(Iterations(frames))[SaveFrame] == |frames|
    ensures multiset(Iterations(frames))[Pause] == |frames|
    decreases |frames|
  {
    if frames != [] {
      var init := frames[..|frames| - 1];
      var f := frames[|frames| - 1];
      EveryIterationSavesAndPauses(init);
      IterationCounts(f);
      assert multiset(Iterations(frames)) == multiset(Iterations(init)) + multiset(IterationEffects(f));
    }
  }

  /** No iteration starts a recording. */
  lemma {:induction false} IterationsNeverStartRecording(frames: seq<seq<byte>>)
    ensures StartRecording !in Iterations(frames)
    decreases |frames|
  {
    if frames != [] {
      IterationsNeverStartRecording(frames[..|frames| - 1]);
      IterationCounts(frames[|frames| - 1]);
    }
  }

  /** Recording starts exactly once, as the very first effect of `run`, before
      any capture. */
  lemma RecordingStartsOnceFirst(frames: seq<seq<byte>>)
    ensures RunEffects(frames)[0] == StartRecording
    ensures StartRecording !in RunEffects(frames)[1..]
  {
    IterationsNeverStartRecording(frames);
    var rest := Iterations(frames) + CleanupEffects();
    assert RunEffects(frames) == [StartRecording] + rest;
    assert RunEffects(frames)[1..] == rest;
  }

  /** The iterations hand the socket exactly the gate-and-drop of each frame,
      in frame order. */
  lemma {:induction false} IterationsSendGated(frames: seq<seq<byte>>)
    ensures Datagrams(Iterations(frames)) == GateEach(frames)
    decreases |frames|
  {
    if frames != [] {
      var init := frames[..|frames| - 1];
      IterationsSendGated(init);
      DatagramsAppend(Iterations(init), IterationEffects(frames[|frames| - 1]));
      IterationSendsAtMostOneDatagram(frames[|frames| - 1]);
    }
  }

  /** A whole run hands the socket only whole frames of at most 65507 bytes,
      each frame that fits exactly once, in order. */
  lemma RunSendsOnlyWholeFittingFrames(frames: seq<seq<byte>>)
    ensures Datagrams(RunEffects(frames)) == GateEach(frames)
    ensures forall d :: d in Datagrams(RunEffects(frames)) ==> d in frames && |d| <= MaxUdpPayload
  {
    IterationsSendGated(frames);
    SendPhase([], [], CleanupEffects());
    DatagramsAppend([StartRecording] + Iterations(frames), CleanupEffects());
    DatagramsAppend([StartRecording], Iterations(frames));
    DatagramsOfNoSends([StartRecording]);
    DatagramsOfNoSends(CleanupEffects());
    GateEachSendsWholePayloads(frames);
  }

  /** `cleanup` is an orderly shutdown: stop recording, close the camera, close
      the socket, exit 0. */
  lemma CleanupIsOrderly()
    ensures OrderlyShutdown(CleanupEffects())
  {
    var tail := [CloseSocket, Exit(0)];
    SocketThenExit();
    ReleaseBefore(CloseCamera, tail);
    ReleaseBefore(StopRecording, [CloseCamera] + tail);
    assert IsCameraRelease(CleanupEffects()[0]);
    assert CleanupEffects() == [StopRecording] + ([CloseCamera] + tail);
  }
}
