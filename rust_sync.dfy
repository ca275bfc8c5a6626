/** The Rust server's synchronisation core: the shared id counter and
    registry of outbound channels (`ServerState`), registration and the
    per-connection loop (`handle_socket`), and the broadcast (`goto`). Events
    are taken one at a time; the locks only make each registry access atomic. */
module RustSync {
  import opened Wrappers
  import Decimal
  import Lifecycle
  import RustSettings
  import Pages

  /** Ids are `u16`. */
  const IdLimit := 0x1_0000

  /** `*counter += 1` on a `u16` in a release build: 65535 wraps to 0. */
  function NextId(counter: int): (next: int)
    requires 0 <= counter < IdLimit
    ensures 0 <= next < IdLimit
    ensures counter < IdLimit - 1 ==> next == counter + 1
    ensures counter == IdLimit - 1 ==> next == 0
  {
    (counter + 1) % IdLimit
  }

  /** The ids that `k` registrations in a row hand out, starting from `counter`. */
  function IssuedIds(counter: int, k: nat): (ids: seq<int>)
    requires 0 <= counter < IdLimit
    ensures |ids| == k
    decreases k
  {
    if k == 0 then [] else [counter] + IssuedIds(NextId(counter), k - 1)
  }

  lemma {:induction false} IssuedIdAt(counter: int, k: nat, i: nat)
    requires 0 <= counter < IdLimit && i < k
    ensures IssuedIds(counter, k)[i] == (counter + i) % IdLimit
    decreases k
  {
    if i > 0 {
      IssuedIdAt(NextId(counter), k - 1, i - 1);
    }
  }

  /** Registrations with no wrap-around in between get pairwise distinct ids. */
  lemma IssuedIdsDistinct(counter: int, k: nat)
    requires 0 <= counter < IdLimit && k <= IdLimit
    ensures forall i, j :: 0 <= i < j < k ==> IssuedIds(counter, k)[i] != IssuedIds(counter, k)[j]
  {
    forall i, j | 0 <= i < j < k
      ensures IssuedIds(counter, k)[i] != IssuedIds(counter, k)[j]
    {
      IssuedIdAt(counter, k, i);
      IssuedIdAt(counter, k, j);
    }
  }

  /** The 65537th registration in a row gets the first one's id again. */
  lemma IssuedIdsWrap(counter: int, k: nat)
    requires 0 <= counter < IdLimit && k > IdLimit
    ensures IssuedIds(counter, k)[IdLimit] == IssuedIds(counter, k)[0]
  {
    IssuedIdAt(counter, k, IdLimit);
    IssuedIdAt(counter, k, 0);
  }

  const StatusUnauthorized := 401

  /** The status of `goto`: OK exactly when the presented password equals the
      configured one, character for character; the control flag plays no part. */
  function GotoStatus(configured: string, presented: string): (status: int)
    ensures status == Pages.StatusOk || status == StatusUnauthorized
    ensures status == Pages.StatusOk <==> presented == configured
  {
    if configured == presented then Pages.StatusOk else StatusUnauthorized
  }

  /** A tokio `mpsc::channel(1)` whose one Sender is kept in the registry and
      whose Receiver belongs to the connection's handler. `queue[0]` is the one
      buffered message; `queue[1..]` are messages whose `send().await` is still
      waiting for capacity, in the order they started waiting. */
  class Channel {
    var queue: seq<string>
    var senderAlive: bool
    var receiverAlive: bool

    constructor ()
      ensures queue == [] && senderAlive && receiverAlive
    {
      queue := [];
      senderAlive := true;
      receiverAlive := true;
    }

    /** The message in the buffer, if there is one. */
    function Buffered(): (b: seq<string>)
      reads this
      ensures |b| <= 1 && b <= queue
    {
      if queue == [] then [] else [queue[0]]
    }

    /** `sender.send(m).await`: fails only when the receiver is gone; otherwise
      `m` is delivered after everything sent before it, never dropped. */
    method Send(m: string) returns (ok: bool)
      modifies this
      ensures ok == receiverAlive
      ensures queue == if ok then old(queue) + [m] else old(queue)
      ensures senderAlive == old(senderAlive) && receiverAlive == old(receiverAlive)
    {
      ok := receiverAlive;
      if ok {
        queue := queue + [m];
      }
    }

    /** `receiver.recv()` when a message is ready: the oldest one. */
    method Recv() returns (m: string)
      requires queue != []
      modifies this
      ensures [m] == old(Buffered()) && queue == old(queue[1..])
      ensures senderAlive == old(senderAlive) && receiverAlive == old(receiverAlive)
    {
      m := queue[0];
      queue := queue[1..];
    }

    /** Dropping the Sender (its registry entry is removed or replaced). */
    method DropSender()
      modifies this
      ensures !senderAlive && queue == old(queue) && receiverAlive == old(receiverAlive)
    {
      senderAlive := false;
    }

    /** Dropping the Receiver (its handler has returned or panicked): what was
      buffered is lost and every later send fails. */
    method DropReceiver()
      modifies this
      ensures !receiverAlive && queue == [] && senderAlive == old(senderAlive)
    {
      receiverAlive := false;
      queue := [];
    }
  }

  /** The shared part of `ServerState`: the settings and the registry. */
  class Server {
    const password: string
    const control: bool
    const slides: seq<string>
    var counter: int
    var websockets: map<int, Channel>

    /** Every registered id is a `u16` and maps to its own channel. */
    ghost predicate Distinct()
      reads this
    {
      && 0 <= counter < IdLimit
      && (forall id :: id in websockets ==> 0 <= id < IdLimit)
      && (forall i, j :: i in websockets && j in websockets && i != j ==> websockets[i] != websockets[j])
    }

    /** ... and the registry holds the only Sender of each channel in it. */
    ghost predicate Valid()
      reads this, websockets.Values
    {
      Distinct() && forall id :: id in websockets ==> websockets[id].senderAlive
    }

    constructor (settings: RustSettings.Settings)
      ensures Valid()
      ensures password == settings.password && control == settings.control && slides == settings.slides
      ensures counter == 0 && websockets == map[]
    {
      password := settings.password;
      control := settings.control;
      slides := settings.slides;
      counter := 0;
      websockets := map[];
    }

    /** The registration half of `handle_socket`: the id is the counter's
      value, the counter moves on, and a fresh channel is stored under the id.
      After a wrap-around the id can still be in use: its entry is replaced and
      the replaced Sender dropped. */
    method Register() returns (id: int, ch: Channel)
      requires Valid()
      modifies this, if counter in websockets then {websockets[counter]} else {}
      ensures Valid() && fresh(ch)
      ensures id == old(counter) && counter == NextId(old(counter))
      ensures websockets == old(websockets)[id := ch]
      ensures ch.queue == [] && ch.senderAlive && ch.receiverAlive
      ensures id in old(websockets) ==>
        var gone := old(websockets[id]);
        !gone.senderAlive && gone.queue == old(gone.queue) && gone.receiverAlive == old(gone.receiverAlive)
    {
      ch := new Channel();
      id := counter;
      counter := NextId(counter);
      if id in websockets {
        websockets[id].DropSender();
      }
      websockets := websockets[id := ch];
    }

    /** `websockets.remove(&id)`: removes the entry if there is one and drops its
      Sender; an absent id is left alone. */
    method Deregister(id: int)
      requires Valid()
      modifies this`websockets, if id in websockets then {websockets[id]} else {}
      ensures Valid()
      ensures websockets == old(websockets) - {id}
      ensures id in old(websockets) ==>
        var gone := old(websockets[id]);
        !gone.senderAlive && gone.queue == old(gone.queue) && gone.receiverAlive == old(gone.receiverAlive)
    {
      if id in websockets {
        websockets[id].DropSender();
      }
      websockets := websockets - {id};
    }

    /** `goto`: with the right password every channel in the registry is sent
      the decimal text of `page` once; a failed send is ignored and the others
      still go out. With a wrong password nothing is sent. */
    method Goto(page: nat, presented: string) returns (status: int)
      requires Valid()
      modifies websockets.Values
      ensures Valid()
      ensures status == GotoStatus(password, presented)
      ensures forall ch :: ch in websockets.Values ==>
        ch.senderAlive == old(ch.senderAlive) && ch.receiverAlive == old(ch.receiverAlive)
      ensures forall ch :: ch in websockets.Values ==>
        ch.queue == if status == Pages.StatusOk && ch.receiverAlive then old(ch.queue) + [Decimal.Show(page)] else old(ch.queue)
      ensures forall id :: id in websockets ==>
        websockets[id].queue == if status == Pages.StatusOk && websockets[id].receiverAlive
          then old(websockets[id].queue) + [Decimal.Show(page)] else old(websockets[id].queue)
    {
      if password != presented {
        return StatusUnauthorized;
      }
      var message := Decimal.Show(page);
      var pending := websockets.Values;
      while pending != {}
        invariant pending <= websockets.Values
        invariant forall ch :: ch in websockets.Values ==>
          ch.senderAlive == old(ch.senderAlive) && ch.receiverAlive == old(ch.receiverAlive)
        invariant forall ch :: ch in websockets.Values && ch !in pending ==>
          ch.queue == if ch.receiverAlive then old(ch.queue) + [message] else old(ch.queue)
        invariant forall ch :: ch in pending ==> ch.queue == old(ch.queue)
        decreases pending
      {
        HasMember(pending);
        var ch :| ch in pending;
        var _ := ch.Send(message);
        pending := pending - {ch};
      }
      status := Pages.StatusOk;
      assert forall id :: id in websockets ==> websockets[id] in websockets.Values;
    }
  }

  /** Which branch of `select!` the scheduler finds ready in one iteration:
      the channel, or the socket with `Some(Ok(frame))` or with `None`/`Some(Err(_))`. */
  datatype Wake = ChannelReady | SocketReady(frame: Option<Lifecycle.Frame>)

  /** The event one iteration observes, given the channel and the socket; none
      when the branch woken has nothing for `select!` yet. A lost socket keeps
      answering `None`; the `else` branch fires only when the channel is empty
      and its Sender gone as well. */
  function EventOf(queue: seq<string>, senderAlive: bool, socketUp: bool, w: Wake): (e: Option<Lifecycle.Event>)
    ensures e.Some? && e.value.Relay? ==> w == ChannelReady && queue != [] && e.value.message == queue[0]
    ensures e == Some(Lifecycle.Exhausted) ==> queue == [] && !senderAlive && (!socketUp || w == SocketReady(None))
    ensures e.Some? && e.value.Inbound? ==> socketUp && w == SocketReady(Some(e.value.frame))
    ensures w == ChannelReady && queue != [] ==> e == Some(Lifecycle.Relay(queue[0]))
    ensures w.SocketReady? && w.frame.Some? && socketUp ==> e == Some(Lifecycle.Inbound(w.frame.value))
  {
    match w
    case ChannelReady =>
      if queue != [] then Some(Lifecycle.Relay(queue[0]))
      else if !senderAlive && !socketUp then Some(Lifecycle.Exhausted)
      else None
    case SocketReady(f) =>
      if f.Some? && socketUp then Some(Lifecycle.Inbound(f.value))
      else if queue == [] && !senderAlive then Some(Lifecycle.Exhausted)
      else Some(Lifecycle.SocketLost)
  }

  /** One viewer connection: the task running `handle_socket`, with its id,
      the Receiver side of its channel and its socket. */
  class Connection {
    const id: int
    const channel: Channel
    var phase: Lifecycle.Phase
    var socketUp: bool
    var written: seq<Lifecycle.Frame>

    function View(): Lifecycle.Handler
      reads this
    {
      Lifecycle.Handler(phase, socketUp, written)
    }

    /** The Receiver lives exactly as long as the loop runs; a dropped one holds nothing. */
    ghost predicate Valid()
      reads this, channel
    {
      && (phase == Lifecycle.Open <==> channel.receiverAlive)
      && (!channel.receiverAlive ==> channel.queue == [])
    }

    /** Registration, the first half of `handle_socket`. */
    constructor (server: Server)
      requires server.Valid()
      modifies server, if server.counter in server.websockets then {server.websockets[server.counter]} else {}
      ensures Valid() && server.Valid() && fresh(channel)
      ensures id == old(server.counter) && server.counter == NextId(old(server.counter))
      ensures server.websockets == old(server.websockets)[id := channel]
      ensures channel.queue == [] && channel.senderAlive
      ensures View() == Lifecycle.Started
      ensures var c := old(server.counter); c in old(server.websockets) ==> !old(server.websockets)[c].senderAlive
    {
      var i, ch := server.Register();
      id := i;
      channel := ch;
      phase := Lifecycle.Open;
      socketUp := true;
      written := [];
    }

    /** The handler's own reaction to one event: a relayed message is taken
      off the channel, and the state moves as the state machine says. */
    method Observe(e: Lifecycle.Event)
      requires phase == Lifecycle.Open
      requires e.Relay? ==> channel.queue != [] && e.message == channel.queue[0]
      modifies this, channel
      ensures View() == Lifecycle.Step(old(View()), e)
      ensures channel.queue == if e.Relay? then old(channel.queue[1..]) else old(channel.queue)
      ensures channel.senderAlive == old(channel.senderAlive) && channel.receiverAlive == old(channel.receiverAlive)
    {
      if e.Relay? {
        var _ := channel.Recv();
      }
      var h := Lifecycle.Step(View(), e);
      phase, socketUp, written := h.phase, h.socketUp, h.written;
    }

    /** One iteration of the loop: the event is taken from whichever branch is
      ready; a relayed message leaves the channel; stopping by Close or by
      exhaustion removes the id from the registry; stopping in any way drops
      the Receiver. */
    method Step(server: Server, w: Wake)
      requires server.Valid() && Valid()
      modifies this, channel, server`websockets, if id in server.websockets then {server.websockets[id]} else {}
      ensures server.Valid() && Valid()
      ensures var e := EventOf(old(channel.queue), old(channel.senderAlive), old(socketUp), w);
        View() == if old(phase) == Lifecycle.Open && e.Some? then Lifecycle.Step(old(View()), e.value) else old(View())
      ensures var e := EventOf(old(channel.queue), old(channel.senderAlive), old(socketUp), w);
        channel.queue == if phase != Lifecycle.Open then []
                         else if e.Some? && e.value.Relay? then old(channel.queue[1..])
                         else old(channel.queue)
      ensures old(phase) == Lifecycle.Open && phase == Lifecycle.Closed ==>
        server.websockets == old(server.websockets) - {id}
        && (id in old(server.websockets) ==> !old(server.websockets[id]).senderAlive)
      ensures !(old(phase) == Lifecycle.Open && phase == Lifecycle.Closed) ==>
        server.websockets == old(server.websockets)
    {
      if phase != Lifecycle.Open {
        return;
      }
      var e := EventOf(channel.queue, channel.senderAlive, socketUp, w);
      if e.None? {
        return;
      }
      Observe(e.value);
      if phase == Lifecycle.Closed {
        server.Deregister(id);
      }
      if phase != Lifecycle.Open {
        channel.DropReceiver();
      }
    }
  }

  /** Two viewers connect to a fresh server: they get ids 0 and 1, two
      distinct empty channels, and open handlers. */
  method TwoViewers(settings: RustSettings.Settings) returns (server: Server, a: Connection, b: Connection)
    ensures fresh(server) && fresh(a) && fresh(b) && fresh(a.channel) && fresh(b.channel)
    ensures server.Valid() && a.Valid() && b.Valid()
    ensures server.password == settings.password
    ensures a.id == 0 && b.id == 1 && a.channel != b.channel
    ensures server.websockets == map[a.id := a.channel, b.id := b.channel]
    ensures a.View() == Lifecycle.Started && b.View() == Lifecycle.Started
    ensures a.channel.queue == [] && b.channel.queue == []
  {
    server := new Server(settings);
    a := new Connection(server);
    b := new Connection(server);
  }

  /** Two viewers connect; a navigation to slide 2 with the configured
      password queues "2" for both, and the first relays it as one Text frame. */
  method BroadcastReachesEveryViewer(settings: RustSettings.Settings) returns (a: Connection, b: Connection, status: int)
    ensures status == Pages.StatusOk && a.id != b.id
    ensures a.written == [Lifecycle.Text("2")] && a.channel.queue == []
    ensures b.channel.queue == ["2"]
  {
    var server;
    server, a, b := TwoViewers(settings);
    assert server.websockets[a.id] == a.channel && a.channel.receiverAlive;
    assert server.websockets[b.id] == b.channel && b.channel.receiverAlive;
    status := server.Goto(2, settings.password);
    assert a.channel.queue == ["2"];
    a.Step(server, ChannelReady);
  }

  /** A wrong password is refused and no channel receives anything. */
  method WrongPasswordSendsNothing(settings: RustSettings.Settings, presented: string) returns (a: Connection, status: int)
    requires presented != settings.password
    ensures status == StatusUnauthorized && a.channel.queue == []
  {
    var server := new Server(settings);
    a := new Connection(server);
    status := server.Goto(7, presented);
  }

  /** A Ping is answered with a Pong carrying the same payload, and the
      viewer stays connected and registered. */
  method PingIsAnswered(settings: RustSettings.Settings, payload: seq<Lifecycle.byte>) returns (server: Server, a: Connection)
    ensures a.phase == Lifecycle.Open && a.written == [Lifecycle.Pong(payload)]
    ensures a.id in server.websockets && server.websockets[a.id] == a.channel
  {
    server := new Server(settings);
    a := new Connection(server);
    a.Step(server, SocketReady(Some(Lifecycle.Ping(payload))));
  }

  /** A viewer that sent Close is out of the registry: removing its id again
      leaves the registry as the Close left it, and a later navigation skips
      it while the other viewer still gets the message. `afterClose` is the
      registry right after the Close, before the second removal. */
  method ClosedViewerIsSkipped(settings: RustSettings.Settings)
    returns (server: Server, a: Connection, b: Connection, afterClose: map<int, Channel>, status: int)
    ensures status == Pages.StatusOk
    ensures a.phase == Lifecycle.Closed && a.written == [] && !a.channel.receiverAlive
    ensures a.id !in afterClose && afterClose == map[b.id := b.channel]
    ensures server.websockets == afterClose
    ensures b.phase == Lifecycle.Open && b.channel.queue == ["2"]
  {
    server, a, b := TwoViewers(settings);
    assert EventOf([], true, true, SocketReady(Some(Lifecycle.Close))) == Some(Lifecycle.Inbound(Lifecycle.Close));
    a.Step(server, SocketReady(Some(Lifecycle.Close)));
    assert a.phase == Lifecycle.Closed;
    assert server.websockets == map[b.id := b.channel];
    afterClose := server.websockets;
    server.Deregister(a.id);
    assert server.websockets[b.id] == b.channel && b.channel.receiverAlive;
    assert server.websockets.Values == {b.channel};
    status := server.Goto(2, settings.password);
  }
}
