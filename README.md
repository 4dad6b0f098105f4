# camera_epl: capture-and-stream scripts, modelled in Dafny

camera_epl is four near-duplicate Raspberry Pi scripts. Each one captures camera
frames, encodes them to JPEG and streams the bytes over UDP to one fixed
destination. On SIGINT, each releases its devices and exits.

The scripts come in two families:

- **Timer-driven** (`src/camera_epl.py`, `src/cam_test.py`): `capture_and_send`
  takes one frame and sends it as consecutive 65507-byte fragments
  (`split_data`). It then starts a `threading.Timer` for the next cycle.
  `src/camera_epl.py` also writes each frame to a video writer.
- **Loop-driven** (`camera_epl.py`, `cam_and_comm_test_epl.py`): a `while True`
  loop sends each JPEG whole when it fits one UDP datagram and drops it
  otherwise, then sleeps one frame period.

The model has one module per concern:

- `Datagram`: bytes, and the largest UDP payload over IPv4. That is
  65535 − 20 − 8 = 65507 bytes, from the 16-bit Total Length (section 3.1 of
  RFC 791), the option-less IPv4 header and the UDP header (RFC 768).
- `Fragmenter`: `split_data` for every integer chunk size.
- `SendPolicy`: the two per-payload policies, *fragment-always* and
  *gate-and-drop*, as functions from a payload to the datagrams handed to the
  socket.
- `Transport`: the `UDPConnection` class. Its `sent` field records every
  datagram handed to the socket.
- `Effects`: the events a script causes (capture, encode, record, send,
  schedule, pause, releases, exit) and the shape of an orderly shutdown.
- One module per script: `RecordingStreamer` (`src/camera_epl.py`),
  `PlainStreamer` (`src/cam_test.py`), `PiCameraStreamer` (`camera_epl.py`)
  and `OpenCvStreamer` (`cam_and_comm_test_epl.py`).

Each script's `System` is a class. Its methods append the effects to a `log`
field and call the `Udp` object. Each method's contract ties the new log and
the new `udp.sent` to specification functions of the inputs
(`CycleEffects`, `IterationEffects`, `CleanupEffects`, `FragmentAlways`,
`GateAndDrop`). Lemmas prove what the scripts promise about those functions.

Camera, encoder and timer outputs are parameters: the captured or encoded
bytes are an arbitrary `seq<byte>`, and a timer is a number. `Udp.Send`
reports whether the kernel would accept the datagram (the socket is open and
the datagram is at most 65507 bytes). Every streamer method proves that all
its sends are accepted.

The loop-driven `run` is modelled as `Run(frames)`: one iteration per element
of `frames`, followed by the interrupt, which is routed to `cleanup`.
`Camera.saveFrame` in `camera_epl.py` is `PiCameraStreamer.Camera.SaveFrame`.
It has no `modifies` clause, so the verifier guarantees it changes nothing.
Its call at every iteration is stated by `PiCameraStreamer.IterationCounts`
and `PiCameraStreamer.EveryIterationSavesAndPauses` (rows below).
The encoder quality in `cam_and_comm_test_epl.py` is the camera's
`resolution`. `OpenCvStreamer.Wire` builds the camera the way the script
does, with `resolution` 50 and 24 frames per second, and
`OpenCvStreamer.WiredRunEncodesAtFifty` proves that a run of it encodes
every frame at quality 50.

## Model

| member | source | states |
|---|---|---|
| Fragmenter.SplitData | src/camera_epl.py:79-80 | `split_data` for any integer chunk size. A zero step raises ValueError, and only then. A negative step gives the empty list. A positive step gives chunks that rebuild the data in order: ceil(n/cs) of them, none empty, none longer than cs, all but the last exactly cs. |
| Fragmenter.SplitFrom | src/camera_epl.py:80 | The chunks from one offset: each non-empty and at most `size`, all but the last exactly `size`; there are none iff the offset is at or past the end. |
| Fragmenter.SplitConcat | src/camera_epl.py:79-80 | Joining the chunks in list order gives back the data exactly. |
| Fragmenter.SplitCount | src/camera_epl.py:80 | The chunk count is ceil(len/size), and empty data yields the empty list, and only empty data does. |
| Fragmenter.SplitAt | src/camera_epl.py:80 | Chunk k is the slice `data[k*size : k*size+size]`, cut at the end, which the comprehension builds for the k-th value of the range. |
| Fragmenter.SplitIsTheFragmentation | src/cam_test.py:67-68 | The chunks are a fragmentation (rebuild the data, none empty, none over size, all but the last full), and every list with those properties equals them. |
| SendPolicy.FragmentAlways | src/camera_epl.py:94-99 | A non-empty payload becomes ceil(n/65507) datagrams that rebuild it, each non-empty and at most 65507 bytes, all but the last exactly 65507. An empty payload becomes no datagram, and only an empty payload does. |
| SendPolicy.GateAndDropSendsWholeOrNothing | camera_epl.py:77-78 | At most one datagram. It is the payload unchanged exactly when the payload is at most 65507 bytes (inclusive), and nothing is sent exactly when the payload is longer. |
| SendPolicy.GateEachSendsWholePayloads | cam_and_comm_test_epl.py:60-68 | Over a run of payloads, gate-and-drop sends no more datagrams than payloads. Each datagram is one of the payloads, unchanged and at most 65507 bytes, and every payload of at most 65507 bytes is sent. |
| SendPolicy.PoliciesAgreeOnSmallPayloads | src/camera_epl.py:94-99 | A non-empty payload of at most 65507 bytes is sent the same way by both policies: as the single datagram `[payload]`. |
| SendPolicy.PoliciesDifferOnLargePayloads | camera_epl.py:77-78 | Above 65507 bytes, gate-and-drop sends nothing while fragment-always sends at least two datagrams that rebuild the payload. |
| SendPolicy.PoliciesDifferOnEmptyPayload | cam_and_comm_test_epl.py:67-68 | On the empty payload, fragment-always sends nothing while gate-and-drop sends one empty datagram. |
| Transport.Udp.constructor | src/camera_epl.py:13-16 | A connection to the given address and port, open, with nothing sent. |
| Transport.Udp.Send | src/camera_epl.py:18-19 | `sendto` of the whole payload succeeds exactly when the socket is open and the payload fits one UDP datagram. On success exactly that datagram is appended; otherwise nothing is. The socket stays as it was. |
| Transport.Udp.Close | src/camera_epl.py:21-22 | After close the socket is closed and nothing more was sent. |
| Effects.OrderlyShutdownOrder | src/camera_epl.py:69-77 | In an orderly shutdown the timer is cancelled before the camera is released, and the camera before the writer and the socket. No event occurs twice, and every event before the final exit 0 is a release. |
| RecordingStreamer.System.constructor | src/camera_epl.py:52-61 | A new system has its video writer set, no timer and an empty log. |
| RecordingStreamer.System.CaptureAndSend | src/camera_epl.py:82-103 | The log grows by capture, encode at quality 10, colour conversion, record, the sends of the fragments, then the schedule of the next timer. The socket receives exactly `FragmentAlways(imageData)`. `self.timer` becomes that new timer. Camera and writer are unchanged. |
| RecordingStreamer.System.Cleanup | src/camera_epl.py:69-77 | The log grows by `CleanupEffects(timer, writerSet)`. Afterwards the camera, writer and socket are closed, nothing more is sent, and the process has exited. |
| RecordingStreamer.CycleSendsFragments | src/camera_epl.py:94-99 | The datagrams of one cycle are exactly the fragments of the JPEG, in index order, one datagram per chunk. Together they rebuild the JPEG, and each is non-empty and at most 65507 bytes. |
| RecordingStreamer.CycleOrder | src/camera_epl.py:89-103 | The frame is converted and then recorded before any send. The cycle's only Schedule is its last event, so it comes after every send. |
| RecordingStreamer.EmptyPayloadStillSchedules | src/camera_epl.py:94-103 | An empty JPEG sends no datagram, and the next capture is still scheduled. |
| RecordingStreamer.CleanupReleasesWhatIsSet | src/camera_epl.py:71-75 | `cleanup` cancels a timer, first, exactly when one is set. It releases the writer, just before the socket, exactly when one is set. |
| RecordingStreamer.CleanupIsOrderly | src/camera_epl.py:69-77 | For every timer and writer state, `cleanup` is an orderly shutdown: (cancel) then stop camera then (release writer) then close socket then exit 0. |
| RecordingStreamer.AsWrittenCycleLosesFrame | src/camera_epl.py:89 | As written, a cycle ends in NameError with no datagram and no Schedule, whereas the intended cycle sends any non-empty JPEG. |
| PlainStreamer.System.constructor | src/cam_test.py:51-57 | A new system has no timer and an empty log. |
| PlainStreamer.System.CaptureAndSend | src/cam_test.py:70-87 | The log grows by capture, encode at quality 10, the sends of the fragments, then the schedule of the next timer. The socket receives exactly `FragmentAlways(imageData)`, and `self.timer` becomes the new timer. |
| PlainStreamer.System.Cleanup | src/cam_test.py:59-65 | The log grows by `CleanupEffects(timer)`. Afterwards camera and socket are closed, nothing more is sent, and the process has exited. |
| PlainStreamer.CycleSendsFragments | src/cam_test.py:78-83 | The datagrams of a cycle are exactly the 65507-byte fragments of the JPEG, in order, and they rebuild it. |
| PlainStreamer.CycleOrder | src/cam_test.py:70-87 | No record step occurs: the only effects are capture, encode, sends and one final Schedule, which comes after every send. |
| PlainStreamer.EmptyPayloadStillSchedules | src/cam_test.py:78-87 | An empty JPEG sends nothing, and the next capture is still scheduled. |
| PlainStreamer.CleanupIsOrderly | src/cam_test.py:59-65 | `cleanup` is an orderly shutdown: cancel the timer if one is set, then stop camera, close socket, exit 0. With a timer set it cancels that timer, first; with none set it cancels no timer at all. |
| PiCameraStreamer.Camera.constructor | camera_epl.py:23-38 | A new camera, for a positive frame rate, has the given fps and resolution, is open, is not recording and has no connection. |
| PiCameraStreamer.Camera.StartStreaming | camera_epl.py:49-51 | The camera keeps the given connection and is recording. |
| PiCameraStreamer.Camera.Stop | camera_epl.py:53-55 | The camera is no longer recording and is closed. |
| PiCameraStreamer.System.constructor | camera_epl.py:58-62 | A new system holds the connection and the camera, with an empty log. |
| PiCameraStreamer.System.RunOnce | camera_epl.py:75-82 | One iteration: the log grows by `IterationEffects(frame)` and the socket receives exactly `GateAndDrop(frame)`. |
| PiCameraStreamer.System.Cleanup | camera_epl.py:64-68 | The log grows by stop recording, close camera, close socket, exit 0. Afterwards camera and socket are closed. |
| PiCameraStreamer.System.Serve | camera_epl.py:74-82 | The loop adds one iteration's effects per frame, in order, and the socket receives `GateEach(frames)`. |
| PiCameraStreamer.System.Run | camera_epl.py:70-85 | `run` logs `RunEffects(frames)`: start recording, the iterations, then `cleanup` after the interrupt. The socket receives `GateEach(frames)`. The camera holds the system's connection and ends neither recording nor open. |
| PiCameraStreamer.IterationSendsAtMostOneDatagram | camera_epl.py:74-82 | An iteration sends at most one datagram: the frame unchanged exactly when it is at most 65507 bytes. The capture is first, the only send is at position 1, then `saveFrame`, then the pause. |
| PiCameraStreamer.IterationCounts | camera_epl.py:75-82 | An iteration captures, saves and pauses exactly once each, and never starts a recording. |
| PiCameraStreamer.EveryIterationSavesAndPauses | camera_epl.py:74-82 | Over any run, `saveFrame`, the capture and the pause each occur exactly once per iteration, whether or not the frame was sent. |
| PiCameraStreamer.IterationsNeverStartRecording | camera_epl.py:74-82 | The loop never starts a recording. |
| PiCameraStreamer.RecordingStartsOnceFirst | camera_epl.py:70-74 | Recording starts as the first effect of `run`, before the first capture, and never again. |
| PiCameraStreamer.IterationsSendGated | camera_epl.py:74-78 | The datagrams of the loop are exactly the gate-and-drop of each frame, in frame order. |
| PiCameraStreamer.RunSendsOnlyWholeFittingFrames | camera_epl.py:70-85 | The datagrams of a run are `GateEach(frames)`. Each is a whole frame of at most 65507 bytes. |
| PiCameraStreamer.CleanupIsOrderly | camera_epl.py:64-68 | `cleanup` is an orderly shutdown: stop recording, close camera, close socket, exit 0. |
| OpenCvStreamer.Camera.constructor | cam_and_comm_test_epl.py:23-33 | A new camera, for a positive frame rate, has 640x480 frames, the given fps and resolution, and is running. |
| OpenCvStreamer.Camera.Stop | cam_and_comm_test_epl.py:41-42 | The camera is no longer running. |
| OpenCvStreamer.System.constructor | cam_and_comm_test_epl.py:46-50 | A new system holds the connection and the camera, with an empty log. |
| OpenCvStreamer.System.RunOnce | cam_and_comm_test_epl.py:61-70 | One iteration: the log grows by capture, convert, encode at the camera's `resolution`, the gated send, then the pause. The socket receives exactly `GateAndDrop(buffer)`. |
| OpenCvStreamer.System.Cleanup | cam_and_comm_test_epl.py:52-56 | The log grows by stop camera, close socket, exit 0. Afterwards camera and socket are stopped and closed. |
| OpenCvStreamer.System.Serve | cam_and_comm_test_epl.py:60-70 | The loop adds one iteration's effects per buffer, in order, and the socket receives `GateEach(buffers)`. |
| OpenCvStreamer.System.Run | cam_and_comm_test_epl.py:58-73 | `run` logs the iterations and then `cleanup` after the interrupt, and the socket receives `GateEach(buffers)`. |
| OpenCvStreamer.IterationSendsAtMostOneDatagram | cam_and_comm_test_epl.py:60-70 | An iteration sends at most one datagram: the buffer unchanged exactly when it is at most 65507 bytes (inclusive). The encode is at position 2, the only send is at position 3, and the pause is last. |
| OpenCvStreamer.IterationEncodesOnce | cam_and_comm_test_epl.py:64-65 | An iteration encodes exactly once, at the given quality, and never at another. |
| OpenCvStreamer.EveryFrameEncodedAtResolution | cam_and_comm_test_epl.py:64-65 | Over any run, every encode uses the same quality (the camera's `resolution`), exactly once per buffer. |
| OpenCvStreamer.IterationsSendGated | cam_and_comm_test_epl.py:60-68 | The datagrams of the loop are exactly the gate-and-drop of each buffer, in order. |
| OpenCvStreamer.RunSendsOnlyWholeFittingBuffers | cam_and_comm_test_epl.py:58-73 | The datagrams of a run are `GateEach(buffers)`. Each is a whole buffer of at most 65507 bytes. |
| OpenCvStreamer.Wire | cam_and_comm_test_epl.py:78-81 | The wired program: a fresh camera with `resolution` 50 and 24 fps inside a fresh, valid system over the given connection, with an empty log. |
| OpenCvStreamer.WiredRunEncodesAtFifty | cam_and_comm_test_epl.py:64 | A run of the wired program encodes every frame at JPEG quality 50, exactly once per frame. |
| OpenCvStreamer.CleanupIsOrderly | cam_and_comm_test_epl.py:52-56 | `cleanup` is an orderly shutdown: stop camera, close socket, exit 0. |

## Left out

- Camera drivers: constructing, configuring and capturing with Picamera2/PiCamera. The captured or encoded bytes are parameters.
- Image processing: the PIL channel split and merge, the floating-point green boost, and `cv2.cvtColor`. The conversion is the abstract `Convert` event.
- Encoders and the video writer: JPEG encoding (`image.save`, `cv2.imencode`, the camera's JPEG capture) and `cv2.VideoWriter` are foreign codecs. Their output is an input, and recording is the `Record` event.
- The file system: directory creation and the date-based video file name.
- Threads and signals: `threading.Timer` is modelled as a numbered `Schedule` event, and each timer-fired cycle is one more `CaptureAndSend` call. `run` in the timer-driven scripts is that first call. The race between the SIGINT handler and a timer thread is not modelled.
- Interrupts: the interrupt is modelled only at the pause between loop iterations. An interrupt in the middle of an iteration is not modelled.
- Sleep durations: `1 / fps` is a float. Each sleep is an abstract `Pause` event.
- `print` output is left out. `sys.exit(0)` is the terminal `Exit(0)` event.
- Script wiring: the hard-coded addresses, ports, frame rates and resolutions are left out, apart from the wiring of `cam_and_comm_test_epl.py` (`OpenCvStreamer.Wire`).
- Imports: `PiCameraStreamer` models `camera_epl.py` with the legacy camera API that its calls (`capture`, `start_recording`, `stop_recording`) belong to. It assumes that `PiCamera` at `camera_epl.py:1` resolves to that class; the import line itself is not modelled.
- A frame rate of 0: the scripts then raise ZeroDivisionError at `1 / fps` (`src/camera_epl.py:55`, `src/cam_test.py:54`, `camera_epl.py:82`, `cam_and_comm_test_epl.py:70`). The camera constructors require a positive frame rate, and that error path is not modelled. The timer-driven scripts model no camera object, so their `capture_interval` is not modelled at all.
- Socket internals: the kernel's reasons to refuse a datagram are reduced to "socket closed" or "longer than 65507 bytes".
- RecordingStreamer.System.Valid: it does not carry "the Send events of the log are exactly `udp.sent`" as an invariant. That link is proved for each operation by the lemmas (`CycleSendsFragments`, `RunSendsOnlyWholeFittingFrames`, ...) together with the methods' `udp.sent` postconditions.
- RecordingStreamer.System.CaptureAndSend: models the evidently intended cycle, with `numpy` imported. The cycle as written is `CycleEffectsAsWritten`; see Findings.

## Findings

| source | as written | input that shows it | evidently intended | confidence | as-written member | corrected member |
|---|---|---|---|---|---|---|
| src/camera_epl.py:89 | `np.array(image)` is used, but `numpy` is never imported (lines 1-10). Every cycle raises NameError after encoding, before the frame is recorded, sent or rescheduled. | any captured frame, for example one whose JPEG is one byte long | `import numpy as np`: the frame is recorded, its fragments are sent and the next capture is scheduled | high (not executed) | RecordingStreamer.AsWrittenCycleLosesFrame | RecordingStreamer.System.CaptureAndSend |
