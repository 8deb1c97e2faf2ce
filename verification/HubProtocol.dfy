// The hub's relay protocol as a state machine (hotswap/hub.go, hotswap/swap.go).
// One event is one step that runs without interruption: a receive, a peer read
// under the read lock, a send, or a section under the write lock. The sends of a
// registration that drains the queue are steps of their own: other relays can
// still send while it holds the lock.
module HubProtocol {
  import opened Wrappers

  datatype Side = Shell | Backend

  function Other(side: Side): Side {
    if side == Shell then Backend else Shell
  }

  // Connections are numbered as they register; messages as they are read.
  type ConnId = nat

  datatype Msg = Msg(from: ConnId, n: nat)

  // Where a connection's relay goroutine is in its loop.
  datatype Relay =
    | Starting
    | Top
    | Receiving
    | Holding(m: Msg)
    | Sending(m: Msg, to: ConnId)
    | Queueing(m: Msg)
    | Closing
    | Stopped
  {
    predicate Holds(m': Msg) {
      match this
      case Holding(m) => m == m'
      case Sending(m, _) => m == m'
      case Queueing(m) => m == m'
      case _ => false
    }
  }

  // `written` is what was sent on the connection, `failed` whether a send on it ever failed.
  datatype Conn =
    Conn(side: Side, relay: Relay, cancelled: bool, closed: bool, failed: bool, read: nat, written: seq<Msg>)

  // One side of the hub: the peer slot, the queue for it, the relay to cancel,
  // and everything ever written to that side, in order.
  datatype Slot = Slot(peer: Option<ConnId>, queue: seq<Msg>, cancel: Option<ConnId>, out: seq<Msg>)

  // `locked` is the registration that holds the write lock to drain its queue, if
  // any; `done` says that the context the hub runs in, and with it every relay's, has ended.
  datatype Hub =
    Hub(conns: seq<Conn>, shell: Slot, backend: Slot, lost: seq<Msg>, locked: Option<Side>, done: bool)
  {
    function At(side: Side): Slot {
      if side == Shell then shell else backend
    }

    function With(side: Side, slot: Slot): Hub {
      if side == Shell then this.(shell := slot) else this.(backend := slot)
    }

    function Moved(c: ConnId, relay: Relay): Hub
      requires c < |conns|
    {
      this.(conns := conns[c := conns[c].(relay := relay)])
    }

    // The side that connection c's messages go to.
    function Dest(c: ConnId): Side
      requires c < |conns|
    {
      Other(conns[c].side)
    }

    // Slots name connections of their own side, relays hold their own messages
    // and send to the other side.
    ghost predicate WellFormed() {
      && SlotOk(Shell) && SlotOk(Backend)
      && (locked.Some? ==> At(locked.value).peer.Some? && conns[At(locked.value).peer.value].relay.Starting?)
      && forall c :: 0 <= c < |conns| ==> RelayOk(c)
    }

    ghost predicate SlotOk(side: Side) {
      && (At(side).peer.Some? ==> At(side).peer.value < |conns| && conns[At(side).peer.value].side == side)
      && (At(side).cancel.Some? ==> At(side).cancel.value < |conns|)
    }

    ghost predicate RelayOk(c: ConnId)
      requires c < |conns|
    {
      && (forall m :: conns[c].relay.Holds(m) ==> m.from == c && m.n + 1 == conns[c].read)
      && (conns[c].relay.Sending? ==> conns[c].relay.to < |conns| && conns[conns[c].relay.to].side == Dest(c))
    }
  }

  datatype Event =
    | CheckContext(c: ConnId)
    | Receive(c: ConnId)
    | ReceiveError(c: ConnId)
    | ClearSlot(c: ConnId)
    | ReadPeer(c: ConnId)
    | SendOk(c: ConnId)
    | SendFail(c: ConnId)
    | Enqueue(c: ConnId)
    | Register(side: Side)
    | DrainSend(ok: bool)
    | EndRegister
    | SwapBackend
    | CloseHub
    | EndContext

  predicate Enabled(h: Hub, e: Event) {
    match e
    case CheckContext(c) => c < |h.conns| && h.conns[c].relay.Top?
    case Receive(c) => c < |h.conns| && h.conns[c].relay.Receiving?
    case ReceiveError(c) => c < |h.conns| && h.conns[c].relay.Receiving?
    case ClearSlot(c) => c < |h.conns| && h.conns[c].relay.Closing? && h.locked.None?
    case ReadPeer(c) => c < |h.conns| && h.conns[c].relay.Holding? && h.locked.None?
    case SendOk(c) => c < |h.conns| && h.conns[c].relay.Sending?
    case SendFail(c) => c < |h.conns| && h.conns[c].relay.Sending?
    case Enqueue(c) => c < |h.conns| && h.conns[c].relay.Queueing? && h.locked.None?
    case Register(side) => h.locked.None?
    case DrainSend(ok) => h.locked.Some? && h.At(h.locked.value).queue != []
    case EndRegister => h.locked.Some? && h.At(h.locked.value).queue == []
    case SwapBackend => h.locked.None?
    case CloseHub => h.locked.None?
    case EndContext => true
  }

  // ----- The locked sections -----

  function Cancelled(h: Hub, relay: Option<ConnId>): Hub {
    if relay.Some? && relay.value < |h.conns|
    then h.(conns := h.conns[relay.value := h.conns[relay.value].(cancelled := true)])
    else h
  }

  function Closed(h: Hub, conn: Option<ConnId>): Hub {
    if conn.Some? && conn.value < |h.conns|
    then h.(conns := h.conns[conn.value := h.conns[conn.value].(closed := true)])
    else h
  }

  // m is written to connection p, on the given side.
  function Written(h: Hub, side: Side, p: ConnId, m: Msg): Hub
    requires p < |h.conns|
  {
    h.(conns := h.conns[p := h.conns[p].(written := h.conns[p].written + [m])])
     .With(side, h.At(side).(out := h.At(side).out + [m]))
  }

  // The head of the queue is sent to the registering connection, or lost if the send fails.
  function DrainedOne(h: Hub, side: Side, p: ConnId, ok: bool): Hub
    requires p < |h.conns| && h.At(side).queue != []
  {
    var m := h.At(side).queue[0];
    var h1 := h.With(side, h.At(side).(queue := h.At(side).queue[1..]));
    if ok then Written(h1, side, p, m)
    else h1.(conns := h.conns[p := h.conns[p].(failed := true)], lost := h.lost + [m])
  }

  // The new connection takes the slot; its predecessor is cancelled and closed.
  function Installed(h: Hub, side: Side): Hub {
    var h1 := Closed(Cancelled(h, h.At(side).cancel), h.At(side).peer);
    h1.(conns := h1.conns + [Conn(side, Starting, false, false, false, 0, [])], locked := Some(side))
      .With(side, h.At(side).(peer := Some(|h.conns|)))
  }

  function Apply(h: Hub, e: Event): Hub
    requires Enabled(h, e) && h.WellFormed()
  {
    match e
    case CheckContext(c) => h.Moved(c, if h.conns[c].cancelled || h.done then Stopped else Receiving)
    case Receive(c) =>
      var k := h.conns[c];
      h.(conns := h.conns[c := k.(relay := Holding(Msg(c, k.read)), read := k.read + 1)])
    case ReceiveError(c) => h.Moved(c, Closing)
    case ClearSlot(c) =>
      var side := h.conns[c].side;
      var h1 := h.Moved(c, Stopped);
      if h.At(side).peer == Some(c) then h1.With(side, h.At(side).(peer := None)) else h1
    case ReadPeer(c) =>
      var m := h.conns[c].relay.m;
      var peer := h.At(h.Dest(c)).peer;
      h.Moved(c, if peer.Some? then Sending(m, peer.value) else Queueing(m))
    case SendOk(c) =>
      assert h.RelayOk(c);
      Written(h.Moved(c, Top), h.Dest(c), h.conns[c].relay.to, h.conns[c].relay.m)
    case SendFail(c) =>
      assert h.RelayOk(c);
      var p := h.conns[c].relay.to;
      var h1 := h.Moved(c, Queueing(h.conns[c].relay.m));
      h1.(conns := h1.conns[p := h1.conns[p].(failed := true)])
    case Enqueue(c) =>
      var d := h.Dest(c);
      h.Moved(c, Top).With(d, h.At(d).(queue := h.At(d).queue + [h.conns[c].relay.m]))
    case Register(side) => Installed(h, side)
    case DrainSend(ok) => DrainedOne(h, h.locked.value, h.At(h.locked.value).peer.value, ok)
    case EndRegister =>
      var side := h.locked.value;
      var p := h.At(side).peer.value;
      h.Moved(p, Top).With(side, h.At(side).(cancel := Some(p))).(locked := None)
    case SwapBackend =>
      var h1 := Closed(Cancelled(h, h.backend.cancel), h.backend.peer);
      h1.(backend := h.backend.(peer := None, cancel := None))
    case CloseHub =>
      Closed(Closed(Cancelled(Cancelled(h, h.shell.cancel), h.backend.cancel), h.shell.peer), h.backend.peer)
    case EndContext => h.(done := true)
  }

  const EMPTY: Slot := Slot(None, [], None, [])
  const START: Hub := Hub([], EMPTY, EMPTY, [], None, false)

}
