// When the relay hub delivers in order: two assumptions that suffice, and that
// neither can be dropped (hotswap/hub.go, hotswap/socket.go).
module HubDelivery {
  import opened Wrappers
  import opened HubProtocol
  import opened HubConservation
  import opened HubOrdering

  // ----- Two assumptions that suffice -----

  // Send failure is permanent: a connection a send failed on takes no more.
  ghost predicate Permanent(h: Hub, e: Event)
    requires h.WellFormed() && Enabled(h, e)
  {
    match e
    case SendOk(c) => assert h.RelayOk(c); !h.conns[h.conns[c].relay.to].failed
    case DrainSend(ok) => ok ==> !h.conns[h.At(h.locked.value).peer.value].failed
    case _ => true
  }

  // No registration falls between a relay's peer read and its enqueue: a failed
  // send was to the connection still registered last, and no registration starts
  // for a side while a relay is about to queue for it.
  ghost predicate Undisturbed(h: Hub, e: Event)
    requires h.WellFormed() && Enabled(h, e)
  {
    match e
    case SendFail(c) => assert h.RelayOk(c); Latest(h, h.conns[c].relay.to)
    case Register(side) => forall c :: 0 <= c < |h.conns| && h.Dest(c) == side ==> !h.conns[c].relay.Queueing?
    case _ => true
  }

  // Nobody can be reached on this side.
  ghost predicate Unreachable(h: Hub, side: Side) {
    h.At(side).peer.Some? ==> h.At(side).peer.value < |h.conns| && h.conns[h.At(side).peer.value].failed
  }

  // Messages queue up only for a side that cannot be reached, and a relay with a
  // message of its own in the queue can only fail to send directly.
  ghost predicate QueueJustified(h: Hub, side: Side) {
    && (h.At(side).queue != [] && h.locked != Some(side) ==> Unreachable(h, side))
    && (forall c :: 0 <= c < |h.conns| && h.Dest(c) == side ==> RelayJustified(h, side, c))
  }

  ghost predicate RelayJustified(h: Hub, side: Side, c: ConnId)
    requires c < |h.conns|
  {
    match h.conns[c].relay
    case Sending(m, p) =>
      && (HasQueued(h, side, c) ==> p < |h.conns| && h.conns[p].failed)
      && (p < |h.conns| ==> !h.conns[p].relay.Starting?)
    case Queueing(m) => Unreachable(h, side) && h.locked != Some(side)
    case _ => true
  }

  // A relay waits to be started only while its registration drains the queue.
  ghost predicate StartingLocked(h: Hub) {
    forall c :: 0 <= c < |h.conns| && h.conns[c].relay.Starting? ==>
      h.locked.Some? && h.At(h.locked.value).peer == Some(c)
  }

  ghost predicate Justified(h: Hub) {
    && Inv(h) && SlotsCurrent(h)
    && QueueJustified(h, Shell) && QueueJustified(h, Backend) && StartingLocked(h)
  }

  // Some relays came to rest, and nobody became reachable.
  ghost predicate Settled(h: Hub, h': Hub, side: Side) {
    && |h'.conns| == |h.conns|
    && (forall p {:trigger h'.conns[p]} :: 0 <= p < |h.conns| ==>
         && (h.conns[p].failed ==> h'.conns[p].failed)
         && (h'.conns[p].relay == h.conns[p].relay || h'.conns[p].relay.Top? || h'.conns[p].relay.Stopped?))
    && (Unreachable(h, side) ==> Unreachable(h', side))
    && (h'.locked == Some(side) ==> h.locked == Some(side))
  }

  lemma SettledKeepsQueue(h: Hub, h': Hub, side: Side, c: ConnId)
    requires Settled(h, h', side) && c < |h.conns| && RelayJustified(h, side, c)
    requires h'.conns[c].relay == h.conns[c].relay && HasQueued(h', side, c) ==> HasQueued(h, side, c)
    ensures RelayJustified(h', side, c)
  {
  }

  lemma RelayStepKeepsQueue(h: Hub, e: Event, side: Side, c: ConnId)
    requires h.WellFormed() && QueueJustified(h, side) && StartingLocked(h) && Enabled(h, e)
    requires e.CheckContext? || e.Receive? || e.ReceiveError?
    requires c < |h.conns| && h.Dest(c) == side
    ensures c < |Apply(h, e).conns| && RelayJustified(Apply(h, e), side, c)
  {
    assert RelayJustified(h, side, c);
  }

  lemma ClearSlotSettles(h: Hub, c: ConnId, side: Side)
    requires h.WellFormed() && Enabled(h, ClearSlot(c))
    ensures Settled(h, Apply(h, ClearSlot(c)), side) && Apply(h, ClearSlot(c)).At(side).queue == h.At(side).queue
  {
    var h' := Apply(h, ClearSlot(c));
    assert h'.conns == h.Moved(c, Stopped).conns && h'.At(side).peer in {h.At(side).peer, None};
  }

  lemma ClearSlotKeepsQueue(h: Hub, d: ConnId, side: Side, c: ConnId)
    requires h.WellFormed() && QueueJustified(h, side) && Enabled(h, ClearSlot(d))
    requires c < |h.conns| && h.Dest(c) == side
    ensures c < |Apply(h, ClearSlot(d)).conns| && RelayJustified(Apply(h, ClearSlot(d)), side, c)
  {
    ClearSlotSettles(h, d, side);
    SettledKeepsQueue(h, Apply(h, ClearSlot(d)), side, c);
  }

  lemma ReadPeerKeepsQueue(h: Hub, d: ConnId, side: Side, c: ConnId)
    requires h.WellFormed() && QueueJustified(h, side) && StartingLocked(h) && Enabled(h, ReadPeer(d))
    requires c < |h.conns| && h.Dest(c) == side
    ensures c < |Apply(h, ReadPeer(d)).conns| && RelayJustified(Apply(h, ReadPeer(d)), side, c)
  {
    assert RelayJustified(h, side, c);
  }

  lemma SendFailKeepsQueue(h: Hub, c: ConnId, side: Side, d: ConnId)
    requires Justified(h) && Enabled(h, SendFail(c)) && Undisturbed(h, SendFail(c))
    requires d < |h.conns| && h.Dest(d) == side
    ensures d < |Apply(h, SendFail(c)).conns| && RelayJustified(Apply(h, SendFail(c)), side, d)
  {
    assert h.RelayOk(c) && RelayJustified(h, side, d);
    if d == c {
      var p := h.conns[c].relay.to;
      assert h.At(side).peer.Some? ==> h.At(side).peer == Some(p);
    }
  }

  lemma SendOkSettles(h: Hub, c: ConnId, side: Side)
    requires h.WellFormed() && Enabled(h, SendOk(c))
    ensures Settled(h, Apply(h, SendOk(c)), side) && Apply(h, SendOk(c)).At(side).queue == h.At(side).queue
  {
    assert h.RelayOk(c);
    var h' := Apply(h, SendOk(c));
    assert h'.At(side).peer == h.At(side).peer;
    forall p | 0 <= p < |h.conns|
      ensures h'.conns[p].failed == h.conns[p].failed
      ensures h'.conns[p].relay == h.conns[p].relay || h'.conns[p].relay.Top?
    {
    }
  }

  lemma SendOkKeepsQueue(h: Hub, c: ConnId, side: Side, d: ConnId)
    requires h.WellFormed() && QueueJustified(h, side) && Enabled(h, SendOk(c))
    requires d < |h.conns| && h.Dest(d) == side
    ensures d < |Apply(h, SendOk(c)).conns| && RelayJustified(Apply(h, SendOk(c)), side, d)
  {
    SendOkSettles(h, c, side);
    SettledKeepsQueue(h, Apply(h, SendOk(c)), side, d);
  }

  lemma EnqueueSettles(h: Hub, c: ConnId, side: Side)
    requires h.WellFormed() && Enabled(h, Enqueue(c))
    ensures Settled(h, Apply(h, Enqueue(c)), side)
    ensures Apply(h, Enqueue(c)).At(side).queue ==
      h.At(side).queue + if side == h.Dest(c) then [h.conns[c].relay.m] else []
  {
    var h' := Apply(h, Enqueue(c));
    assert h'.conns == h.Moved(c, Top).conns && h'.At(side).peer == h.At(side).peer;
  }

  lemma EnqueueKeepsQueue(h: Hub, c: ConnId, side: Side, d: ConnId)
    requires h.WellFormed() && QueueJustified(h, side) && Enabled(h, Enqueue(c))
    requires d < |h.conns| && h.Dest(d) == side
    ensures d < |Apply(h, Enqueue(c)).conns| && RelayJustified(Apply(h, Enqueue(c)), side, d)
  {
    assert h.RelayOk(c);
    var h' := Apply(h, Enqueue(c));
    EnqueueSettles(h, c, side);
    if d != c && HasQueued(h', side, d) {
      var i :| 0 <= i < |h'.At(side).queue| && h'.At(side).queue[i].from == d;
      assert h.At(side).queue[i].from == d;
    }
    SettledKeepsQueue(h, h', side, d);
  }

  lemma RegisterKeepsQueue(h: Hub, added: Side, side: Side, c: ConnId)
    requires h.WellFormed() && QueueJustified(h, side) && Enabled(h, Register(added)) && Undisturbed(h, Register(added))
    requires c < |h.conns| && h.Dest(c) == side
    ensures c < |Apply(h, Register(added)).conns| && RelayJustified(Apply(h, Register(added)), side, c)
  {
    RetiredOnlyFlags(h, added);
    assert RelayJustified(h, side, c) && h.RelayOk(c);
    var h' := Apply(h, Register(added));
    assert h'.At(side).queue == h.At(side).queue;
    assert h'.conns[c].relay == h.conns[c].relay;
  }

  lemma DrainSendSettles(h: Hub, ok: bool, side: Side)
    requires h.WellFormed() && Enabled(h, DrainSend(ok))
    ensures Settled(h, Apply(h, DrainSend(ok)), side)
    ensures Apply(h, DrainSend(ok)).At(side).queue == h.At(side).queue[if side == h.locked.value then 1 else 0..]
  {
    var h' := Apply(h, DrainSend(ok));
    assert h'.At(side).peer == h.At(side).peer;
  }

  lemma DrainSendKeepsQueue(h: Hub, ok: bool, side: Side, c: ConnId)
    requires h.WellFormed() && QueueJustified(h, side) && Enabled(h, DrainSend(ok))
    requires c < |h.conns| && h.Dest(c) == side
    ensures c < |Apply(h, DrainSend(ok)).conns| && RelayJustified(Apply(h, DrainSend(ok)), side, c)
  {
    var h' := Apply(h, DrainSend(ok));
    DrainSendSettles(h, ok, side);
    if HasQueued(h', side, c) {
      var i :| 0 <= i < |h'.At(side).queue| && h'.At(side).queue[i].from == c;
      assert h.At(side).queue[if side == h.locked.value then i + 1 else i].from == c;
    }
    SettledKeepsQueue(h, h', side, c);
  }

  lemma EndRegisterKeepsQueue(h: Hub, side: Side, c: ConnId)
    requires h.WellFormed() && QueueJustified(h, side) && StartingLocked(h) && Enabled(h, EndRegister)
    requires c < |h.conns| && h.Dest(c) == side
    ensures c < |Apply(h, EndRegister).conns| && RelayJustified(Apply(h, EndRegister), side, c)
  {
    assert RelayJustified(h, side, c);
  }

  lemma SwapKeepsQueue(h: Hub, side: Side, c: ConnId)
    requires h.WellFormed() && QueueJustified(h, side) && Enabled(h, SwapBackend)
    requires c < |h.conns| && h.Dest(c) == side
    ensures c < |Apply(h, SwapBackend).conns| && RelayJustified(Apply(h, SwapBackend), side, c)
  {
    SwapOnlyFlags(h);
    assert RelayJustified(h, side, c);
  }

  lemma OnlyFlagsKeepsQueue(h: Hub, h': Hub, side: Side)
    requires OnlyFlags(h, h') && QueueJustified(h, side)
    ensures QueueJustified(h', side)
  {
    forall c | 0 <= c < |h'.conns| && h'.Dest(c) == side
      ensures RelayJustified(h', side, c)
    {
      assert RelayJustified(h, side, c);
    }
  }

  // A relay justified before stays so, and the queue of a side stays justified.
  lemma StepKeepsRelayJustified(h: Hub, e: Event, side: Side, c: ConnId)
    requires Justified(h) && Enabled(h, e) && Permanent(h, e) && Undisturbed(h, e) && !e.CloseHub?
    requires c < |h.conns| && h.Dest(c) == side
    ensures c < |Apply(h, e).conns| && RelayJustified(Apply(h, e), side, c)
  {
    match e
    case CheckContext(_) => RelayStepKeepsQueue(h, e, side, c);
    case Receive(_) => RelayStepKeepsQueue(h, e, side, c);
    case ReceiveError(_) => RelayStepKeepsQueue(h, e, side, c);
    case ClearSlot(d) => ClearSlotKeepsQueue(h, d, side, c);
    case ReadPeer(d) => ReadPeerKeepsQueue(h, d, side, c);
    case SendOk(d) => SendOkKeepsQueue(h, d, side, c);
    case SendFail(d) => SendFailKeepsQueue(h, d, side, c);
    case Enqueue(d) => EnqueueKeepsQueue(h, d, side, c);
    case Register(added) => RegisterKeepsQueue(h, added, side, c);
    case DrainSend(ok) => DrainSendKeepsQueue(h, ok, side, c);
    case EndRegister => EndRegisterKeepsQueue(h, side, c);
    case SwapBackend => SwapKeepsQueue(h, side, c);
    case EndContext =>
  }

  lemma RelayStepKeepsUnreachable(h: Hub, e: Event, side: Side)
    requires h.WellFormed() && Enabled(h, e) && Unreachable(h, side)
    requires e.ClearSlot? || e.ReadPeer? || e.SendOk? || e.SendFail? || e.Enqueue?
    ensures Unreachable(Apply(h, e), side)
  {
    assert h.RelayOk(e.c);
  }

  lemma StepKeepsUnreachable(h: Hub, e: Event, side: Side)
    requires h.WellFormed() && Enabled(h, e) && Unreachable(h, side) && e != Register(side) && !e.CloseHub?
    ensures Unreachable(Apply(h, e), side)
  {
    match e
    case CheckContext(_) =>
    case Receive(_) =>
    case ReceiveError(_) =>
    case ClearSlot(_) => RelayStepKeepsUnreachable(h, e, side);
    case ReadPeer(d) => RelayStepKeepsUnreachable(h, e, side);
    case SendOk(d) => RelayStepKeepsUnreachable(h, e, side);
    case SendFail(d) => RelayStepKeepsUnreachable(h, e, side);
    case Enqueue(d) => RelayStepKeepsUnreachable(h, e, side);
    case Register(added) => RetiredOnlyFlags(h, added);
    case DrainSend(ok) =>
    case EndRegister =>
    case SwapBackend =>
    case EndContext =>
  }

  // A step that fills no queue and releases no lock on a filled one.
  lemma StepKeepsQueueEmpty(h: Hub, e: Event, side: Side)
    requires h.WellFormed() && Enabled(h, e) && !e.Enqueue? && !e.CloseHub? && !e.Register?
    ensures Apply(h, e).At(side).queue != [] ==> h.At(side).queue != []
    ensures Apply(h, e).At(side).queue != [] && Apply(h, e).locked != Some(side) ==> h.locked != Some(side)
  {
    match e
    case CheckContext(_) =>
    case Receive(_) =>
    case ReceiveError(_) =>
    case ClearSlot(_) =>
    case ReadPeer(d) =>
    case SendOk(d) => assert h.RelayOk(d);
    case SendFail(d) => assert h.RelayOk(d);
    case DrainSend(ok) =>
    case EndRegister =>
    case SwapBackend =>
    case EndContext =>
  }

  lemma StepKeepsQueueJustified(h: Hub, e: Event, side: Side)
    requires Justified(h) && Enabled(h, e) && Permanent(h, e) && Undisturbed(h, e)
    ensures QueueJustified(Apply(h, e), side)
  {
    var h' := Apply(h, e);
    if e.CloseHub? {
      CloseOnlyFlags(h);
      OnlyFlagsKeepsQueue(h, h', side);
      return;
    }
    StepKeepsSides(h, e);
    forall c | 0 <= c < |h'.conns| && h'.Dest(c) == side
      ensures RelayJustified(h', side, c)
    {
      if c < |h.conns| {
        StepKeepsRelayJustified(h, e, side, c);
      } else {
        NewConnStarts(h, e, c);
      }
    }
    if h'.At(side).queue != [] && h'.locked != Some(side) {
      if e.Enqueue? {
        EnqueueFindsUnreachable(h, e.c, side);
      } else if e.Register? {
        RegisterKeepsLine(h, e.side);
        StepKeepsUnreachable(h, e, side);
      } else {
        StepKeepsQueueEmpty(h, e, side);
        StepKeepsUnreachable(h, e, side);
      }
    }
  }

  lemma NewConnStarts(h: Hub, e: Event, c: ConnId)
    requires h.WellFormed() && Enabled(h, e) && |h.conns| <= c < |Apply(h, e).conns|
    ensures Apply(h, e).conns[c].relay.Starting?
  {
    StepKeepsSides(h, e);
    RetiredOnlyFlags(h, e.side);
  }

  lemma EnqueueFindsUnreachable(h: Hub, c: ConnId, side: Side)
    requires Justified(h) && Enabled(h, Enqueue(c)) && Apply(h, Enqueue(c)).At(side).queue != []
    ensures Unreachable(Apply(h, Enqueue(c)), side)
  {
    assert h.RelayOk(c) && RelayJustified(h, h.Dest(c), c);
    RelayStepKeepsUnreachable(h, Enqueue(c), side);
  }

  lemma RelayStepKeepsStarting(h: Hub, e: Event)
    requires h.WellFormed() && StartingLocked(h) && Enabled(h, e)
    requires e.ClearSlot? || e.ReadPeer? || e.SendOk? || e.SendFail? || e.Enqueue?
    ensures StartingLocked(Apply(h, e))
  {
    assert h.RelayOk(e.c);
  }

  lemma StepKeepsStarting(h: Hub, e: Event)
    requires h.WellFormed() && StartingLocked(h) && Enabled(h, e)
    ensures StartingLocked(Apply(h, e))
  {
    match e
    case CheckContext(_) =>
    case Receive(_) =>
    case ReceiveError(_) =>
    case ClearSlot(_) => RelayStepKeepsStarting(h, e);
    case ReadPeer(_) => RelayStepKeepsStarting(h, e);
    case SendOk(_) => RelayStepKeepsStarting(h, e);
    case SendFail(_) => RelayStepKeepsStarting(h, e);
    case Enqueue(_) => RelayStepKeepsStarting(h, e);
    case Register(added) => RegisterKeepsStarting(h, added);
    case DrainSend(ok) =>
    case EndRegister =>
    case SwapBackend =>
    case CloseHub => CloseOnlyFlags(h);
    case EndContext =>
  }

  lemma RegisterKeepsStarting(h: Hub, added: Side)
    requires h.WellFormed() && StartingLocked(h) && Enabled(h, Register(added))
    ensures StartingLocked(Apply(h, Register(added)))
  {
    RetiredOnlyFlags(h, added);
  }

  lemma StepKeepsJustified(h: Hub, e: Event)
    requires Justified(h) && Enabled(h, e) && Permanent(h, e) && Undisturbed(h, e)
    ensures Justified(Apply(h, e))
  {
    StepKeepsSlotsCurrent(h, e);
    StepKeepsQueueJustified(h, e, Shell);
    StepKeepsQueueJustified(h, e, Backend);
    StepKeepsStarting(h, e);
  }

  // A relay with a queued message can only fail to send directly.
  lemma JustifiedNeverOvertakes(h: Hub, e: Event)
    requires Justified(h) && Enabled(h, e) && Permanent(h, e)
    ensures !Overtakes(h, e)
  {
    if e.SendOk? {
      assert h.RelayOk(e.c) && RelayJustified(h, h.Dest(e.c), e.c);
    }
  }

  // A run in which send failure is permanent, if that is assumed, and no registration
  // falls between a relay's peer read and its enqueue, if that is.
  ghost predicate RunsUnder(h: Hub, run: seq<Event>, h': Hub, permanent: bool, undisturbed: bool)
    requires Inv(h)
    decreases |run|
  {
    if run == [] then h' == h
    else
      && Enabled(h, run[0]) && Meets(h, run[0], permanent, undisturbed)
      && (StepKeepsInv(h, run[0]); RunsUnder(Apply(h, run[0]), run[1..], h', permanent, undisturbed))
  }

  ghost predicate Meets(h: Hub, e: Event, permanent: bool, undisturbed: bool)
    requires h.WellFormed() && Enabled(h, e)
  {
    (permanent ==> Permanent(h, e)) && (undisturbed ==> Undisturbed(h, e))
  }

  lemma {:induction false} OrderlyRunNeverOvertakes(h: Hub, run: seq<Event>, h': Hub)
    requires Justified(h) && RunsUnder(h, run, h', true, true)
    ensures Runs(h, run, h') && NeverOvertakes(h, run) && Justified(h')
    decreases |run|
  {
    if run != [] {
      StepKeepsJustified(h, run[0]);
      JustifiedNeverOvertakes(h, run[0]);
      OrderlyRunNeverOvertakes(Apply(h, run[0]), run[1..], h');
    }
  }

  // So under both assumptions messages of one connection reach the other side in the
  // order read; and a message waits in a queue only while nobody can be reached or the
  // queue is being drained.
  lemma {:induction false} DeliveredInOrder(run: seq<Event>, h: Hub)
    requires Inv(START) && RunsUnder(START, run, h, true, true)
    ensures InOrder(h.shell.out) && InOrder(h.backend.out)
    ensures forall p :: 0 <= p < |h.conns| ==> InOrder(h.conns[p].written)
    ensures forall side: Side :: h.At(side).queue != [] && h.locked != Some(side) ==> Unreachable(h, side)
  {
    assert Justified(START);
    OrderlyRunNeverOvertakes(START, run, h);
    InOrderIffNeverOvertakes(run, h);
    forall side: Side | h.At(side).queue != [] && h.locked != Some(side)
      ensures Unreachable(h, side)
    {
      assert QueueJustified(h, Shell) && QueueJustified(h, Backend);
    }
  }

  // ----- Neither assumption can be dropped -----

  // One more step of a run.
  lemma {:induction false} Extended(h: Hub, run: seq<Event>, mid: Hub, e: Event, permanent: bool, undisturbed: bool)
    requires Inv(h) && RunsUnder(h, run, mid, permanent, undisturbed)
    requires Inv(mid) && Enabled(mid, e) && Meets(mid, e, permanent, undisturbed)
    ensures Inv(Apply(mid, e)) && RunsUnder(h, run + [e], Apply(mid, e), permanent, undisturbed)
    decreases |run|
  {
    StepKeepsInv(mid, e);
    if run != [] {
      StepKeepsInv(h, run[0]);
      assert (run + [e])[1..] == run[1..] + [e];
      Extended(Apply(h, run[0]), run[1..], mid, e, permanent, undisturbed);
    }
  }

  // A backend, the shell, and possibly more backends, of which the last holds the slot.
  ghost predicate Stands(h: Hub, last: ConnId, conns: seq<Conn>, queue: seq<Msg>, out: seq<Msg>) {
    h == Hub(conns, Slot(Some(1), [], Some(1), []), Slot(Some(last), queue, Some(last), out), [], None, false)
  }

  ghost function Back(replaced: bool, failed: bool, written: seq<Msg>): Conn {
    Conn(Backend, Top, replaced, replaced, failed, 0, written)
  }

  ghost function Front(relay: Relay, read: nat): Conn {
    Conn(Shell, relay, false, false, false, read, [])
  }

  const FIRST: Msg := Msg(1, 0)
  const SECOND: Msg := Msg(1, 1)

  // Backend and shell register.
  lemma BothRegister(p: bool, u: bool) returns (run: seq<Event>, h: Hub)
    ensures Inv(START) && RunsUnder(START, run, h, p, u) && Inv(h)
    ensures Stands(h, 0, [Back(false, false, []), Front(Top, 0)], [], [])
  {
    StartInv();
    run, h := Then([], START, Register(Backend), p, u);
    run, h := Then(run, h, EndRegister, p, u);
    run, h := Then(run, h, Register(Shell), p, u);
    run, h := Then(run, h, EndRegister, p, u);
  }

  lemma Then(run: seq<Event>, h: Hub, e: Event, p: bool, u: bool) returns (run': seq<Event>, h': Hub)
    requires Inv(START) && RunsUnder(START, run, h, p, u) && Inv(h) && Enabled(h, e) && Meets(h, e, p, u)
    ensures RunsUnder(START, run', h', p, u) && h' == Apply(h, e) && Inv(h')
  {
    Extended(START, run, h, e, p, u);
    run', h' := run + [e], Apply(h, e);
  }

  // The shell's relay reads a message and the peer.
  lemma ReadsOne(run: seq<Event>, h: Hub, last: ConnId, p: bool, u: bool) returns (run': seq<Event>, h': Hub)
    requires Inv(START) && RunsUnder(START, run, h, p, u) && Inv(h) && last < |h.conns|
    requires |h.conns| > 1 && h.conns[1] == Front(Top, h.conns[1].read)
    requires h.backend.peer == Some(last) && h.locked.None? && !h.done
    ensures RunsUnder(START, run', h', p, u) && Inv(h')
    ensures h' == h.(conns := h.conns[1 := Front(Sending(Msg(1, h.conns[1].read), last), h.conns[1].read + 1)])
  {
    run', h' := Then(run, h, CheckContext(1), p, u);
    run', h' := Then(run', h', Receive(1), p, u);
    run', h' := Then(run', h', ReadPeer(1), p, u);
    assert h'.conns == h.conns[1 := Front(Sending(Msg(1, h.conns[1].read), last), h.conns[1].read + 1)];
  }

  // The send to the first backend fails, and the first message is queued.
  lemma FailsAndQueues(run: seq<Event>, h: Hub, last: ConnId, conns: seq<Conn>, p: bool, u: bool)
    returns (run': seq<Event>, h': Hub)
    requires Inv(START) && RunsUnder(START, run, h, p, u) && Inv(h) && |conns| > 1
    requires Stands(h, last, conns, [], []) && conns[1] == Front(Sending(FIRST, 0), 1)
    requires conns[0].side == Backend && Meets(h, SendFail(1), p, u)
    ensures RunsUnder(START, run', h', p, u) && Inv(h')
    ensures Stands(h', last, conns[0 := conns[0].(failed := true)][1 := Front(Top, 1)], [FIRST], [])
  {
    run', h' := Then(run, h, SendFail(1), p, u);
    run', h' := Then(run', h', Enqueue(1), p, u);
    assert h'.conns == conns[0 := conns[0].(failed := true)][1 := Front(Top, 1)];
  }

  // Another backend registers, and gets the first message after the second.
  lemma DrainsLate(run: seq<Event>, h: Hub, p: bool, u: bool) returns (run': seq<Event>, h': Hub)
    requires Inv(START) && RunsUnder(START, run, h, p, u) && Inv(h)
    requires h.locked.None? && h.backend.queue == [FIRST] && h.backend.out == [SECOND]
    requires forall c :: 0 <= c < |h.conns| ==> !h.conns[c].relay.Queueing?
    ensures RunsUnder(START, run', h', p, u) && h'.backend.out == [SECOND, FIRST] && !InOrder(h'.backend.out)
  {
    run', h' := Then(run, h, Register(Backend), p, u);
    assert h'.locked == Some(Backend) && h'.backend.queue == [FIRST] && h'.backend.out == [SECOND];
    assert Permanent(h', DrainSend(true));
    run', h' := Then(run', h', DrainSend(true), p, u);
    assert h'.backend.out[0].from == h'.backend.out[1].from;
  }

  // Send failure is permanent, but a backend registers between the peer read and the
  // failed send: the second message goes to it directly, while the first waits for
  // the next registration although a backend can be reached.
  lemma RegistrationBetweenReorders() returns (run: seq<Event>, h: Hub)
    ensures Inv(START) && RunsUnder(START, run, h, true, false)
    ensures h.backend.out == [SECOND, FIRST] && !InOrder(h.backend.out)
  {
    run, h := BothRegister(true, false);
    run, h := ReadsOne(run, h, 0, true, false);
    run, h := AnotherRegisters(run, h);
    run, h := FailsAndQueues(run, h, 2, h.conns, true, false);
    run, h := ReadsOne(run, h, 2, true, false);
    assert Meets(h, SendOk(1), true, false);
    run, h := Then(run, h, SendOk(1), true, false);
    run, h := DrainsLate(run, h, true, false);
  }

  lemma AnotherRegisters(run: seq<Event>, h: Hub) returns (run': seq<Event>, h': Hub)
    requires Inv(START) && RunsUnder(START, run, h, true, false) && Inv(h)
    requires Stands(h, 0, [Back(false, false, []), Front(Sending(FIRST, 0), 1)], [], [])
    ensures RunsUnder(START, run', h', true, false) && Inv(h')
    ensures Stands(h', 2, [Back(true, false, []), Front(Sending(FIRST, 0), 1), Back(false, false, [])], [], [])
  {
    run', h' := Then(run, h, Register(Backend), true, false);
    run', h' := Then(run', h', EndRegister, true, false);
  }

  // No registration falls between, but a send fails and the next one on the same
  // connection succeeds: the first message waits for the next registration, the second does not.
  lemma RecoveredSendReorders() returns (run: seq<Event>, h: Hub)
    ensures Inv(START) && RunsUnder(START, run, h, false, true)
    ensures h.backend.out == [SECOND, FIRST] && !InOrder(h.backend.out)
  {
    run, h := BothRegister(false, true);
    run, h := ReadsOne(run, h, 0, false, true);
    assert Latest(h, 0);
    run, h := FailsAndQueues(run, h, 0, h.conns, false, true);
    run, h := ReadsOne(run, h, 0, false, true);
    run, h := Then(run, h, SendOk(1), false, true);
    run, h := DrainsLate(run, h, false, true);
  }
}
