/**
 The observable effects of one streaming script, in the order it causes them,
 and facts about effect logs shared by every script.
 */
module Effects {
  import opened Datagram

  datatype Option<T> = None | Some(value: T)

  /** One call the scripts make into a collaborator. */
  datatype Event =
    | Capture                     // the camera captures one frame
    | Convert                     // the frame's colour order is converted
    | Encode(quality: int)        // the frame is encoded to JPEG at this quality
    | Record                      // the frame is written to the video writer
    | Send(datagram: seq<byte>)   // one datagram is handed to the socket
    | SaveFrame                   // the camera's saveFrame hook is called
    | Schedule(timer: nat)        // a timer for the next capture is started
    | Pause                       // the loop sleeps one frame period
    | StartRecording              // the camera starts recording to its file
    | CancelTimer(timer: nat)     // the pending capture timer is cancelled
    | StopRecording               // the camera stops recording
    | CloseCamera                 // the camera device is closed
    | StopCamera                  // the camera device is stopped
    | ReleaseWriter               // the video writer is released
    | CloseSocket                 // the socket is closed
    | Exit(status: int)           // the process exits with this status
    | Crash(error: string)        // an exception ends the cycle

  /** The datagrams a log hands to the socket, in order. */
  function Datagrams(log: seq<Event>): seq<seq<byte>>
  {
    if log == [] then []
    else (if log[0].Send? then [log[0].datagram] else []) + Datagrams(log[1..])
  }

  /** One Send event per datagram, in order. */
  function SendAll(ds: seq<seq<byte>>): (r: seq<Event>)
    ensures |r| == |ds|
    ensures forall k :: 0 <= k < |r| ==> r[k] == Send(ds[k])
  {
    seq(|ds|, k requires 0 <= k < |ds| => Send(ds[k]))
  }

  lemma SeqAssoc3<T>(a: seq<T>, b: seq<T>, c: seq<T>)
    ensures a + b + c == a + (b + c)
  {
  }

  lemma SeqAssoc<T>(a: seq<T>, b: seq<T>, c: seq<T>, d: seq<T>)
    ensures a + b + c + d == a + (b + c + d)
  {
  }

  /** Sending one more datagram appends one more Send event. */
  lemma SendAllSnoc(ds: seq<seq<byte>>, i: nat)
    requires i < |ds|
    ensures SendAll(ds[..i + 1]) == SendAll(ds[..i]) + [Send(ds[i])]
  {
    assert ds[..i + 1] == ds[..i] + [ds[i]];
  }

  lemma {:induction false} DatagramsAppend(a: seq<Event>, b: seq<Event>)
    ensures Datagrams(a + b) == Datagrams(a) + Datagrams(b)
    decreases |a|
  {
    if a == [] {
      assert a + b == b;
    } else {
      var head := if a[0].Send? then [a[0].datagram] else [];
      assert (a + b)[0] == a[0] && (a + b)[1..] == a[1..] + b;
      assert Datagrams(a + b) == head + Datagrams(a[1..] + b);
      DatagramsAppend(a[1..], b);
      SeqAssoc3(head, Datagrams(a[1..]), Datagrams(b));
    }
  }

  /** A log with no Send event hands nothing to the socket. */
  lemma {:induction false} DatagramsOfNoSends(e: seq<Event>)
    requires forall k :: 0 <= k < |e| ==> !e[k].Send?
    ensures Datagrams(e) == []
    decreases |e|
  {
    if e != [] {
      DatagramsOfNoSends(e[1..]);
    }
  }

  /** The Send events of a list of datagrams hand exactly that list to the socket. */
  lemma {:induction false} DatagramsOfSendAll(ds: seq<seq<byte>>)
    ensures Datagrams(SendAll(ds)) == ds
    decreases |ds|
  {
    if ds != [] {
      assert SendAll(ds)[1..] == SendAll(ds[1..]);
      DatagramsOfSendAll(ds[1..]);
    }
  }

  /** The datagrams of a log made of a send-free prefix, the sends of `ds`, and a
      send-free suffix are exactly `ds`. */
  lemma SendPhase(prefix: seq<Event>, ds: seq<seq<byte>>, suffix: seq<Event>)
    requires forall k :: 0 <= k < |prefix| ==> !prefix[k].Send?
    requires forall k :: 0 <= k < |suffix| ==> !suffix[k].Send?
    ensures Datagrams(prefix + SendAll(ds) + suffix) == ds
  {
    var sends := SendAll(ds);
    var e := prefix + sends;
    DatagramsAppend(e, suffix);
    DatagramsAppend(prefix, sends);
    DatagramsOfNoSends(prefix);
    DatagramsOfNoSends(suffix);
    DatagramsOfSendAll(ds);
  }

  predicate IsCameraRelease(ev: Event)
  {
    ev == StopRecording || ev == CloseCamera || ev == StopCamera
  }

  predicate IsSinkRelease(ev: Event)
  {
    ev == ReleaseWriter || ev == CloseSocket
  }

  predicate IsRelease(ev: Event)
  {
    ev.CancelTimer? || IsCameraRelease(ev) || IsSinkRelease(ev)
  }

  /** The place of a release in the shutdown order: timer, then the camera's
      recording, then the camera itself, then the writer, then the socket, and
      exit last. Every other event has rank 0. */
  function Rank(ev: Event): nat
  {
    match ev
    case CancelTimer(_) => 1
    case StopRecording => 2
    case CloseCamera => 3
    case StopCamera => 3
    case ReleaseWriter => 4
    case CloseSocket => 5
    case Exit(_) => 6
    case _ => 0
  }

  /** Each event ranks strictly above the one before it. */
  ghost predicate Rising(e: seq<Event>)
  {
    forall k :: 0 <= k < |e| - 1 ==> Rank(e[k]) < Rank(e[k + 1])
  }

  /** Only releases and then the exit, in strictly rising rank, the socket
      closed last and then the process exiting with status 0. */
  ghost predicate ReleasesThenExit(e: seq<Event>)
  {
    && |e| >= 2
    && e[|e| - 1] == Exit(0)
    && e[|e| - 2] == CloseSocket
    && (forall k :: 0 <= k < |e| ==> Rank(e[k]) > 0)
    && Rising(e)
  }

  /** An orderly shutdown: releases in strictly rising rank, at least one of
      them releasing the camera, the socket closed last and then the process
      exiting with status 0. */
  ghost predicate OrderlyShutdown(e: seq<Event>)
  {
    && ReleasesThenExit(e)
    && (exists k :: 0 <= k < |e| && IsCameraRelease(e[k]))
  }

  /** The shortest shutdown tail: close the socket, exit 0. */
  lemma SocketThenExit()
    ensures ReleasesThenExit([CloseSocket, Exit(0)])
  {
    var e := [CloseSocket, Exit(0)];
    assert Rank(e[0]) < Rank(e[1]);
  }

  /** A release of lower rank than the first event may be put in front. */
  lemma ReleaseBefore(a: Event, e: seq<Event>)
    requires ReleasesThenExit(e) && 0 < Rank(a) < Rank(e[0])
    ensures ReleasesThenExit([a] + e)
  {
    var f := [a] + e;
    forall k | 0 < k < |f| ensures f[k] == e[k - 1] && Rank(f[k]) > 0 {
    }
    forall k | 0 <= k < |f| - 1 ensures Rank(f[k]) < Rank(f[k + 1]) {
      if k > 0 {
        assert f[k] == e[k - 1] && f[k + 1] == e[k];
      }
    }
  }

  lemma {:induction false} RisingOrdered(e: seq<Event>, i: nat, j: nat)
    requires Rising(e) && i < j < |e|
    ensures Rank(e[i]) < Rank(e[j])
    decreases j - i
  {
    if i + 1 < j {
      RisingOrdered(e, i + 1, j);
    }
  }

  /** What an orderly shutdown guarantees: the pending timer is cancelled before
      the camera is released, the camera (the source of data) before the writer
      and the socket (its sinks), no resource is released twice, and the exit
      with status 0 happens once, last. */
  lemma OrderlyShutdownOrder(e: seq<Event>)
    requires OrderlyShutdown(e)
    ensures forall i, j :: 0 <= i < |e| && 0 <= j < |e| && e[i].CancelTimer? && IsCameraRelease(e[j]) ==> i < j
    ensures forall i, j :: 0 <= i < |e| && 0 <= j < |e| && IsCameraRelease(e[i]) && IsSinkRelease(e[j]) ==> i < j
    ensures forall i, j :: 0 <= i < j < |e| ==> e[i] != e[j]
    ensures forall i :: 0 <= i < |e| - 1 ==> !e[i].Exit? && IsRelease(e[i])
  {
    forall i, j | 0 <= i < j < |e|
      ensures Rank(e[i]) < Rank(e[j])
    {
      RisingOrdered(e, i, j);
    }
  }
}
