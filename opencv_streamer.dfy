/**
 The loop-driven streamer on the newer camera API with OpenCV encoding
 (cam_and_comm_test_epl.py): each loop iteration captures a frame, converts it
 from RGB to BGR, encodes it to JPEG at the camera's `resolution` (used as the
 JPEG quality), sends the JPEG as one datagram if it fits, and sleeps; an
 interrupt leads to `cleanup`, which stops the camera, closes the socket and
 exits.
 */
module OpenCvStreamer {
  import opened Datagram
  import opened SendPolicy
  import opened Transport
  import opened Effects

  /** The `resolution` the program wires its camera with; it is passed to the
      encoder as the JPEG quality. */
  const WiredResolution: int := 50
  /** The frames per second the program wires its camera with. */
  const WiredFps: nat := 24

  class Camera {
    const frameWidth: nat
    const frameHeight: nat
    const resolution: int
    const fps: nat
    /** The camera was started by the constructor and not yet stopped. */
    var running: bool

    /** `Camera(fps, resolution)`: configures 640x480 preview frames and starts
        the camera. The loop sleeps `1 / fps`, so the frame rate must be positive. */
    constructor (fps: nat, resolution: int)
      requires fps > 0
      ensures this.fps == fps && this.resolution == resolution
      ensures frameWidth == 640 && frameHeight == 480 && running
    {
      frameWidth := 640;
      frameHeight := 480;
      this.resolution := resolution;
      this.fps := fps;
      running := true;
    }

    /** `stop`: stops the camera. */
    method Stop()
      modifies this
      ensures !running
    {
      running := false;
    }
  }

  /** The effects of one loop iteration whose encoder produced `buffer`, at
      JPEG quality `quality`. */
  function IterationEffects(buffer: seq<byte>, quality: int): seq<Event>
  {
    [Capture, Convert, Encode(quality)] + SendAll(GateAndDrop(buffer)) + [Pause]
  }

  /** The effects of one iteration per buffer, in order. */
  function Iterations(buffers: seq<seq<byte>>, quality: int): seq<Event>
  {
    if buffers == [] then []
    else Iterations(buffers[..|buffers| - 1], quality) + IterationEffects(buffers[|buffers| - 1], quality)
  }

  /** The effects of `cleanup`: stop the camera, close the socket, exit 0. */
  function CleanupEffects(): seq<Event>
  {
    [StopCamera, CloseSocket, Exit(0)]
  }

  /** The effects of `run` when the interrupt arrives after the iterations for
      `buffers`. */
  function RunEffects(buffers: seq<seq<byte>>, quality: int): seq<Event>
  {
    Iterations(buffers, quality) + CleanupEffects()
  }

  /** Running one more iteration appends its effects and its datagrams. */
  lemma IterationsSnoc(buffers: seq<seq<byte>>, quality: int, i: nat)
    requires i < |buffers|
    ensures Iterations(buffers[..i + 1], quality) == Iterations(buffers[..i], quality) + IterationEffects(buffers[i], quality)
    ensures GateEach(buffers[..i + 1]) == GateEach(buffers[..i]) + GateAndDrop(buffers[i])
  {
    assert buffers[..i + 1][..i] == buffers[..i];
  }

  class System {
    const udp: Udp
    const camera: Camera
    var exited: bool
    /** Every effect so far, in order. */
    var log: seq<Event>

    ghost predicate Valid()
      reads this, udp, camera
    {
      !exited ==> udp.open && camera.running
    }

    /** `System(udpConnection, camera)`. */
    constructor (udp: Udp, camera: Camera)
      requires udp.open && camera.running
      ensures Valid() && this.udp == udp && this.camera == camera
      ensures !exited && log == []
    {
      this.udp := udp;
      this.camera := camera;
      exited := false;
      log := [];
    }

    /** One iteration of the `while True` loop of `run`, with the encoder's
        output given as `buffer`: the frame is converted and encoded at the
        camera's `resolution` as JPEG quality, sent whole as one datagram when
        the buffer is at most 65507 bytes long and dropped otherwise, and then
        the loop sleeps. */
    method RunOnce(buffer: seq<byte>)
      requires Valid() && !exited
      modifies this, udp
      ensures Valid() && !exited
      ensures log == old(log) + IterationEffects(buffer, camera.resolution)
      ensures udp.sent == old(udp.sent) + GateAndDrop(buffer)
    {
      log := log + [Capture, Convert, Encode(camera.resolution)];
      if |buffer| <= GateLimit {
        var ok := udp.Send(buffer);
        assert ok;
        log := log + [Send(buffer)];
      }
      log := log + [Pause];
      assert SendAll(GateAndDrop(buffer)) == if |buffer| <= GateLimit then [Send(buffer)] else [];
    }

    /** `cleanup`: stops the camera, closes the socket and exits with status 0. */
    method Cleanup()
      requires Valid() && !exited
      modifies this, udp, camera
      ensures Valid() && exited
      ensures log == old(log) + CleanupEffects()
      ensures !camera.running && !udp.open && udp.sent == old(udp.sent)
    {
      camera.Stop();
      log := log + [StopCamera];
      udp.Close();
      log := log + [CloseSocket];
      log := log + [Exit(0)];
      exited := true;
    }

    /** The `while True` loop of `run`, one iteration per buffer of `buffers`,
        until the interrupt arrives. */
    method Serve(buffers: seq<seq<byte>>)
      requires Valid() && !exited
      modifies this, udp
      ensures Valid() && !exited
      ensures log == old(log) + Iterations(buffers, camera.resolution)
      ensures udp.sent == old(udp.sent) + GateEach(buffers)
    {
      ghost var oldLog := log;
      var i := 0;
      while i < |buffers|
        invariant 0 <= i <= |buffers|
        invariant Valid() && !exited
        invariant log == oldLog + Iterations(buffers[..i], camera.resolution)
        invariant udp.sent == old(udp.sent) + GateEach(buffers[..i])
      {
        ghost var done := Iterations(buffers[..i], camera.resolution);
        RunOnce(buffers[i]);
        IterationsSnoc(buffers, camera.resolution, i);
        SeqAssoc3(oldLog, done, IterationEffects(buffers[i], camera.resolution));
        SeqAssoc3(old(udp.sent), GateEach(buffers[..i]), GateAndDrop(buffers[i]));
        i := i + 1;
      }
      assert buffers[..i] == buffers;
    }

    /** `run`: the loop runs one iteration per buffer of `buffers`, and the
        interrupt that arrives after the last one is routed to `cleanup`. */
    method Run(buffers: seq<seq<byte>>)
      requires Valid() && !exited
      modifies this, udp, camera
      ensures Valid() && exited
      ensures log == old(log) + RunEffects(buffers, camera.resolution)
      ensures udp.sent == old(udp.sent) + GateEach(buffers)
      ensures !camera.running && !udp.open
    {
      ghost var oldLog := log;
      Serve(buffers);
      Cleanup();
      SeqAssoc3(oldLog, Iterations(buffers, camera.resolution), CleanupEffects());
    }
  }

  /** The program's wiring: the camera is built with 24 frames per second and
      `resolution` 50, and the system around it with the given connection; a
      run of it therefore encodes every frame at JPEG quality 50. */
  method Wire(udp: Udp) returns (s: System)
    requires udp.open
    ensures fresh(s) && fresh(s.camera) && s.udp == udp
    ensures s.camera.resolution == WiredResolution && s.camera.fps == WiredFps
    ensures s.Valid() && !s.exited && s.log == []
  {
    var camera := new Camera(WiredFps, WiredResolution);
    s := new System(udp, camera);
  }

  /** A run of the wired program encodes every frame at quality 50, once per frame. */
  lemma WiredRunEncodesAtFifty(buffers: seq<seq<byte>>)
    ensures forall ev :: ev in RunEffects(buffers, WiredResolution) && ev.Encode? ==> ev.quality == 50
    ensures multiset(RunEffects(buffers, WiredResolution))[Encode(50)] == |buffers|
  {
    EveryFrameEncodedAtResolution(buffers, WiredResolution);
    var loop, cleanup := Iterations(buffers, WiredResolution), CleanupEffects();
    assert cleanup == [StopCamera, CloseSocket, Exit(0)];
    assert multiset(cleanup)[Encode(50)] == 0;
    assert forall ev :: ev in cleanup ==> !ev.Encode?;
    assert RunEffects(buffers, WiredResolution) == loop + cleanup;
    assert multiset(loop + cleanup) == multiset(loop) + multiset(cleanup);
  }

  /** One iteration sends at most one datagram, exactly the gate-and-drop of
      the buffer: the whole buffer when it is at most 65507 bytes long, nothing
      otherwise; the encoding comes before the send and the pause after it. */
  lemma IterationSendsAtMostOneDatagram(buffer: seq<byte>, quality: int)
    ensures Datagrams(IterationEffects(buffer, quality)) == GateAndDrop(buffer)
    ensures |Datagrams(IterationEffects(buffer, quality))| <= 1
    ensures Datagrams(IterationEffects(buffer, quality)) == [buffer] <==> |buffer| <= MaxUdpPayload
    ensures var e := IterationEffects(buffer, quality);
      && e[2] == Encode(quality) && e[|e| - 1] == Pause
      && (forall k :: 0 <= k < |e| && e[k].Send? ==> k == 3)
  {
    SendPhase([Capture, Convert, Encode(quality)], GateAndDrop(buffer), [Pause]);
  }

  /** One iteration encodes once, at `quality`, and encodes nothing else. */
  lemma IterationEncodesOnce(buffer: seq<byte>, quality: int)
    ensures forall ev :: ev in IterationEffects(buffer, quality) && ev.Encode? ==> ev.quality == quality
    ensures multiset(IterationEffects(buffer, quality))[Encode(quality)] == 1
  {
    var sends := SendAll(GateAndDrop(buffer));
    assert forall k :: 0 <= k < |sends| ==> sends[k].Send?;
    assert forall ev :: ev in sends ==> !ev.Encode?;
    assert multiset(IterationEffects(buffer, quality)) == multiset([Capture, Convert, Encode(quality)]) + multiset(sends) + multiset([Pause]);
  }

  /** Every frame is encoded exactly once, and always at the same quality: the
      camera's `resolution`. */
  lemma {:induction false} EveryFrameEncodedAtResolution(buffers: seq<seq<byte>>, quality: int)
    ensures forall ev :: ev in Iterations(buffers, quality) && ev.Encode? ==> ev.quality == quality
    ensures multiset(Iterations(buffers, quality))[Encode(quality)] == |buffers|
    decreases |buffers|
  {
    if buffers != [] {
      var init := buffers[..|buffers| - 1];
      var b := buffers[|buffers| - 1];
      EveryFrameEncodedAtResolution(init, quality);
      IterationEncodesOnce(b, quality);
      assert multiset(Iterations(buffers, quality)) == multiset(Iterations(init, quality)) + multiset(IterationEffects(b, quality));
    }
  }

  /** The iterations hand the socket exactly the gate-and-drop of each buffer,
      in order. */
  lemma {:induction false} IterationsSendGated(buffers: seq<seq<byte>>, quality: int)
    ensures Datagrams(Iterations(buffers, quality)) == GateEach(buffers)
    decreases |buffers|
  {
    if buffers != [] {
      var init := buffers[..|buffers| - 1];
      IterationsSendGated(init, quality);
      DatagramsAppend(Iterations(init, quality), IterationEffects(buffers[|buffers| - 1], quality));
      IterationSendsAtMostOneDatagram(buffers[|buffers| - 1], quality);
    }
  }

  /** A whole run hands the socket only whole buffers of at most 65507 bytes,
      each buffer that fits exactly once, in order. */
  lemma RunSendsOnlyWholeFittingBuffers(buffers: seq<seq<byte>>, quality: int)
    ensures Datagrams(RunEffects(buffers, quality)) == GateEach(buffers)
    ensures forall d :: d in Datagrams(RunEffects(buffers, quality)) ==> d in buffers && |d| <= MaxUdpPayload
  {
    IterationsSendGated(buffers, quality);
    DatagramsAppend(Iterations(buffers, quality), CleanupEffects());
    DatagramsOfNoSends(CleanupEffects());
    GateEachSendsWholePayloads(buffers);
  }

  /** `cleanup` is an orderly shutdown: stop the camera, close the socket, exit 0. */
  lemma CleanupIsOrderly()
    ensures OrderlyShutdown(CleanupEffects())
  {
    var tail := [CloseSocket, Exit(0)];
    SocketThenExit();
    ReleaseBefore(StopCamera, tail);
    assert CleanupEffects() == [StopCamera] + tail;
    assert IsCameraRelease(CleanupEffects()[0]);
  }
}
