/** capture_and_output with the device reduced to the outcome of each ioctl:
    queue the buffer, start streaming, dequeue the filled buffer, print the
    hex dump of the requested rows, stop streaming. A failing ioctl prints its
    message through perror_exit and ends the process. */
module Capture {
  import opened Bytes
  import opened HexDump

  datatype Request = QueueBuffer | StreamOn | DequeueBuffer | StreamOff

  /** What the program does, in order: an ioctl and whether it succeeded, the
      dump it prints, or the exit through perror_exit with its message. */
  datatype Event = Ioctl(request: Request, ok: bool) | Print(tokens: seq<Token>) | Exit(message: string)

  /** Whether the device accepts each request. */
  datatype Device = Device(queueOk: bool, streamOnOk: bool, dequeueOk: bool, streamOffOk: bool)

  /** The requests in the order the source issues them. */
  const Order: seq<Request> := [QueueBuffer, StreamOn, DequeueBuffer, StreamOff]

  function Answer(d: Device, r: Request): bool
  {
    match r
    case QueueBuffer => d.queueOk
    case StreamOn => d.streamOnOk
    case DequeueBuffer => d.dequeueOk
    case StreamOff => d.streamOffOk
  }

  /** The message perror_exit is given when a request fails. */
  function Message(r: Request): string
  {
    match r
    case QueueBuffer => "Error queueing buffer"
    case StreamOn => "Error starting stream"
    case DequeueBuffer => "Error dequeuing buffer"
    case StreamOff => "Error stopping stream"
  }

  /** The three requests before the dump all succeed. */
  predicate Started(d: Device)
  {
    d.queueOk && d.streamOnOk && d.dequeueOk
  }

  // ---------------------------------------------------------------------
  // The expected behaviour, driven by the request table

  /** The events from request Order[k] on, when the dump prints `dump`:
      each request is issued in turn, a refusal exits with its message, and
      the dump comes right after the dequeue. */
  function Run(d: Device, k: nat, dump: seq<Token>): seq<Event>
    requires k < |Order|
    decreases |Order| - k
  {
    var r := Order[k];
    var e := Ioctl(r, Answer(d, r));
    if !Answer(d, r) then [e, Exit(Message(r))]
    else if r == DequeueBuffer then [e, Print(dump)] + Run(d, k + 1, dump)
    else if r == StreamOff then [e]
    else [e] + Run(d, k + 1, dump)
  }

  function Expected(d: Device, dump: seq<Token>): seq<Event>
  {
    Run(d, 0, dump)
  }

  /** The requests issued, in order. */
  function Requests(t: seq<Event>): seq<Request>
    decreases |t|
  {
    if t == [] then []
    else Requests(t[..|t| - 1]) + (if t[|t| - 1].Ioctl? then [t[|t| - 1].request] else [])
  }

  predicate Printed(t: seq<Event>)
  {
    exists i :: 0 <= i < |t| && t[i].Print?
  }

  /** How many requests are issued: up to and including the first refused one. */
  function Attempted(d: Device): nat
  {
    if !d.queueOk then 1
    else if !d.streamOnOk then 2
    else if !d.dequeueOk then 3
    else 4
  }

  // ---------------------------------------------------------------------
  // The method

  /** capture_and_output: `data` is the frame buffer as the dequeue leaves
      it. The reads of the dump are in bounds whenever the dump is reached. */
  method CaptureAndOutput(d: Device, data: array<byte>, startRow: u32, endRow: u32, width: u32)
    returns (trace: seq<Event>)
    requires Started(d) ==> InBounds(data.Length, startRow, endRow, width)
    ensures Started(d) ==> trace == Expected(d, Dump(data[..], startRow, endRow, width))
    ensures !Started(d) ==> trace == Expected(d, [])
  {
    trace := [Ioctl(QueueBuffer, d.queueOk)];
    if !d.queueOk {
      trace := trace + [Exit(Message(QueueBuffer))];
      return;
    }
    trace := trace + [Ioctl(StreamOn, d.streamOnOk)];
    if !d.streamOnOk {
      trace := trace + [Exit(Message(StreamOn))];
      return;
    }
    trace := trace + [Ioctl(DequeueBuffer, d.dequeueOk)];
    if !d.dequeueOk {
      trace := trace + [Exit(Message(DequeueBuffer))];
      return;
    }
    var out := DumpRows(data, startRow, endRow, width);
    trace := trace + [Print(out)];
    trace := trace + [Ioctl(StreamOff, d.streamOffOk)];
    if !d.streamOffOk {
      trace := trace + [Exit(Message(StreamOff))];
    }
  }

  // ---------------------------------------------------------------------
  // Properties of the expected behaviour

  /** The run of each device, written out. */
  lemma ExpectedCases(d: Device, dump: seq<Token>)
    ensures !d.queueOk ==> Expected(d, dump) == [Ioctl(QueueBuffer, false), Exit(Message(QueueBuffer))]
    ensures d.queueOk && !d.streamOnOk ==>
      Expected(d, dump) == [Ioctl(QueueBuffer, true), Ioctl(StreamOn, false), Exit(Message(StreamOn))]
    ensures d.queueOk && d.streamOnOk && !d.dequeueOk ==>
      Expected(d, dump) == [Ioctl(QueueBuffer, true), Ioctl(StreamOn, true),
                            Ioctl(DequeueBuffer, false), Exit(Message(DequeueBuffer))]
    ensures Started(d) ==>
      Expected(d, dump) == [Ioctl(QueueBuffer, true), Ioctl(StreamOn, true), Ioctl(DequeueBuffer, true),
                            Print(dump), Ioctl(StreamOff, d.streamOffOk)]
                           + (if d.streamOffOk then [] else [Exit(Message(StreamOff))])
  {
    var r3 := Run(d, 3, dump);
    var r2 := Run(d, 2, dump);
    var r1 := Run(d, 1, dump);
    assert Expected(d, dump) == Run(d, 0, dump);
  }

  /** The dump is printed exactly when queue, stream-on and dequeue all
      succeed, and what is printed is the dump. */
  lemma PrintsIffStarted(d: Device, dump: seq<Token>)
    ensures Printed(Expected(d, dump)) <==> Started(d)
    ensures forall i :: 0 <= i < |Expected(d, dump)| && Expected(d, dump)[i].Print? ==>
              Expected(d, dump)[i].tokens == dump
  {
    ExpectedCases(d, dump);
    var t := Expected(d, dump);
    if Started(d) {
      assert t[3].Print?;
    }
  }

  /** The requests are issued in the source's order, up to and including the
      first one refused. */
  lemma RequestsInOrder(d: Device, dump: seq<Token>)
    ensures Requests(Expected(d, dump)) == Order[..Attempted(d)]
  {
    ExpectedCases(d, dump);
    var t := Expected(d, dump);
    RequestsOfPrefixes(t);
  }

  /** Requests of every prefix of a run of at most six events, unfolded. */
  lemma RequestsOfPrefixes(t: seq<Event>)
    ensures |t| >= 1 ==> Requests(t[..1]) == Requests([]) + (if t[0].Ioctl? then [t[0].request] else [])
    ensures |t| >= 2 ==> Requests(t[..2]) == Requests(t[..1]) + (if t[1].Ioctl? then [t[1].request] else [])
    ensures |t| >= 3 ==> Requests(t[..3]) == Requests(t[..2]) + (if t[2].Ioctl? then [t[2].request] else [])
    ensures |t| >= 4 ==> Requests(t[..4]) == Requests(t[..3]) + (if t[3].Ioctl? then [t[3].request] else [])
    ensures |t| >= 5 ==> Requests(t[..5]) == Requests(t[..4]) + (if t[4].Ioctl? then [t[4].request] else [])
    ensures |t| >= 6 ==> Requests(t[..6]) == Requests(t[..5]) + (if t[5].Ioctl? then [t[5].request] else [])
    ensures |t| <= 6 ==> t[..|t|] == t
  {
    if |t| >= 1 { assert t[..1][..0] == []; }
    if |t| >= 2 { assert t[..2][..1] == t[..1]; }
    if |t| >= 3 { assert t[..3][..2] == t[..2]; }
    if |t| >= 4 { assert t[..4][..3] == t[..3]; }
    if |t| >= 5 { assert t[..5][..4] == t[..4]; }
    if |t| >= 6 { assert t[..6][..5] == t[..5]; }
  }

  /** A refused request is followed by exactly one event, the exit with its
      message; nothing else ends the run early, and a run that is not refused
      anything ends with the stream-off request. */
  lemma ExitOnFailure(d: Device, dump: seq<Token>)
    ensures var t := Expected(d, dump);
            |t| >= 2
            && (forall i :: 0 <= i < |t| - 1 ==> !t[i].Exit?)
            && (forall i :: 0 <= i < |t| && t[i].Ioctl? && !t[i].ok ==>
                  i == |t| - 2 && t[|t| - 1] == Exit(Message(t[i].request)))
            && (t[|t| - 1].Exit? <==> !(Started(d) && d.streamOffOk))
            && (Started(d) && d.streamOffOk ==> t[|t| - 1] == Ioctl(StreamOff, true))
  {
    ExpectedCases(d, dump);
  }

  /** Streaming is stopped only after the dump has been printed. */
  lemma StreamOffAfterPrint(d: Device, dump: seq<Token>)
    ensures var t := Expected(d, dump);
            forall j :: 0 <= j < |t| && t[j].Ioctl? && t[j].request == StreamOff ==>
              exists i :: 0 <= i < j && t[i] == Print(dump)
  {
    ExpectedCases(d, dump);
    var t := Expected(d, dump);
    if Started(d) {
      assert t[3] == Print(dump);
    }
  }
}
