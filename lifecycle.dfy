/** One viewer connection of the Rust server as a state machine: the `loop`
    around `select!` in `handle_socket`, one event per iteration. */
module Lifecycle {

  newtype byte = x: int | 0 <= x < 256

  /** A WebSocket message as axum hands it over or sends it. */
  datatype Frame =
    | Text(text: string)
    | Binary(data: seq<byte>)
    | Ping(payload: seq<byte>)
    | Pong(payload: seq<byte>)
    | Close

  /** `Open` while the loop runs; `Closed` once it has returned after removing
      its id from the registry; `Aborted` once the task has panicked in the
      relay's `unwrap`, without removing its id. */
  datatype Phase = Open | Closed | Aborted

  /** The handler's state: its phase, whether its socket still works, and every
      frame it has written to the socket. */
  datatype Handler = Handler(phase: Phase, socketUp: bool, written: seq<Frame>)

  const Started := Handler(Open, true, [])

  /** What one iteration of the loop observes. */
  datatype Event =
    | Relay(message: string)  // the channel branch: `receiver.recv()` gave `Some(message)`
    | Inbound(frame: Frame)   // the socket branch: `socket.recv()` gave `Some(Ok(frame))`
    | SocketLost              // `socket.recv()` gave `None` or `Some(Err(_))`: taken as the socket being unusable from then on
    | Exhausted               // both branches disabled in one `select!`: its `else => break`

  /** The frame an event makes the handler write, if any, while it runs on a working socket. */
  function Response(e: Event): seq<Frame> {
    match e
    case Relay(m) => [Text(m)]
    case Inbound(Ping(p)) => [Pong(p)]
    case _ => []
  }

  /** Events after which the loop stops. */
  predicate Ends(e: Event) {
    e == Inbound(Close) || e == Exhausted
  }

  /** One iteration of the loop. */
  function Step(h: Handler, e: Event): (r: Handler)
    ensures h.phase != Open ==> r == h
    ensures h.written <= r.written && |r.written| <= |h.written| + 1
    ensures |r.written| > |h.written| ==> h.socketUp && r.written == h.written + Response(e)
    ensures h.phase == Open && r.phase == Closed <==> h.phase == Open && (e == Exhausted || (h.socketUp && e == Inbound(Close)))
    ensures h.phase == Open && r.phase == Aborted <==> h.phase == Open && !h.socketUp && e.Relay?
  {
    if h.phase != Open then h
    else match e
      case Relay(m) =>
        if h.socketUp then h.(written := h.written + [Text(m)]) else h.(phase := Aborted)
      case Inbound(f) =>
        if !h.socketUp then h
        else (match f
          case Close => h.(phase := Closed)
          case Ping(p) => h.(written := h.written + [Pong(p)])
          case _ => h)
      case SocketLost => h.(socketUp := false)
      case Exhausted => h.(phase := Closed, socketUp := false)
  }

  /** What each kind of event does to a running handler on a working socket:
      relay verbatim as one Text frame, answer a Ping with the same payload,
      stop on Close, ignore everything else. */
  lemma StepOnWorkingSocket(h: Handler, e: Event)
    requires h.phase == Open && h.socketUp
    ensures e.Relay? ==> Step(h, e) == h.(written := h.written + [Text(e.message)])
    ensures e.Inbound? && e.frame.Ping? ==> Step(h, e) == h.(written := h.written + [Pong(e.frame.payload)])
    ensures e == Inbound(Close) ==> Step(h, e) == h.(phase := Closed)
    ensures e.Inbound? && !e.frame.Ping? && !e.frame.Close? ==> Step(h, e) == h
  {
  }

  /** The handler over a sequence of events. */
  function Run(h: Handler, events: seq<Event>): Handler
    decreases |events|
  {
    if events == [] then h else Run(Step(h, events[0]), events[1..])
  }

  /** The frames a run on a working socket writes, event by event. */
  function Responses(events: seq<Event>): seq<Frame>
    decreases |events|
  {
    if events == [] then [] else Response(events[0]) + Responses(events[1..])
  }

  /** Running `p` then `q` is running `p + q`. */
  lemma {:induction false} RunAppend(h: Handler, p: seq<Event>, q: seq<Event>)
    ensures Run(h, p + q) == Run(Run(h, p), q)
    decreases |p|
  {
    if p == [] {
      assert p + q == q;
    } else {
      assert (p + q)[0] == p[0] && (p + q)[1..] == p[1..] + q;
      RunAppend(Step(h, p[0]), p[1..], q);
    }
  }

  /** A stopped handler ignores every further event. */
  lemma {:induction false} RunStopped(h: Handler, events: seq<Event>)
    requires h.phase != Open
    ensures Run(h, events) == h
    decreases |events|
  {
    if events != [] {
      RunStopped(Step(h, events[0]), events[1..]);
    }
  }

  /** Once the handler has stopped, later events change nothing. */
  lemma RunAfterStop(h: Handler, p: seq<Event>, q: seq<Event>)
    requires Run(h, p).phase != Open
    ensures Run(h, p + q) == Run(h, p)
  {
    RunAppend(h, p, q);
    RunStopped(Run(h, p), q);
  }

  /** Frames written are never taken back. */
  lemma {:induction false} RunAppendOnly(h: Handler, events: seq<Event>)
    ensures h.written <= Run(h, events).written
    decreases |events|
  {
    if events != [] {
      RunAppendOnly(Step(h, events[0]), events[1..]);
    }
  }

  /** While the socket works and no event stops the loop, the handler writes
      exactly one Text frame per relayed message and one Pong per Ping, in
      order, and nothing else. */
  lemma {:induction false} RunWritesResponses(h: Handler, events: seq<Event>)
    requires h.phase == Open && h.socketUp
    requires forall i :: 0 <= i < |events| ==> !Ends(events[i]) && events[i] != SocketLost
    ensures Run(h, events) == h.(written := h.written + Responses(events))
    decreases |events|
  {
    if events == [] {
      assert h.written + [] == h.written;
    } else {
      var e, rest := events[0], events[1..];
      assert !Ends(e) && e != SocketLost;
      StepOnWorkingSocket(h, e);
      var h' := h.(written := h.written + Response(e));
      assert Step(h, e) == h';
      assert forall i :: 0 <= i < |rest| ==> rest[i] == events[i + 1];
      RunWritesResponses(h', rest);
      assert Responses(events) == Response(e) + Responses(rest);
      assert h.written + Response(e) + Responses(rest) == h.written + Responses(events);
    }
  }

  /** A relay after the socket is lost aborts the task; the relayed message is
      written nowhere and the loop never reaches its deregistration. */
  lemma RelayAfterLoss(h: Handler, m: string)
    requires h.phase == Open
    ensures Run(h, [SocketLost, Relay(m)]) == h.(socketUp := false, phase := Aborted)
  {
    var lost := h.(socketUp := false);
    assert Step(h, SocketLost) == lost;
    assert [SocketLost, Relay(m)][1..] == [Relay(m)];
    assert Run(h, [SocketLost, Relay(m)]) == Run(lost, [Relay(m)]);
    assert Step(lost, Relay(m)) == lost.(phase := Aborted);
    assert Run(lost, [Relay(m)]) == Run(lost.(phase := Aborted), []);
  }
}
