// What a registration, a swap, a disconnect and a shutdown do to the connections
// that are there (hotswap/hub.go, hotswap/swap.go).
module HubLifecycle {
  import opened Wrappers
  import opened HubProtocol
  import opened HubConservation
  import opened HubOrdering

  // ----- One live connection for each side -----

  // c is open and its relay runs only if c holds the slot; its relay can go on only if
  // it is the one to be cancelled next; and a slot names a stopped relay only if that
  // was cancelled.
  ghost predicate Accounted(h: Hub, c: ConnId)
    requires c < |h.conns|
  {
    var k := h.conns[c];
    && (!k.closed && !k.relay.Stopped? ==> h.At(k.side).peer == Some(c))
    && (!k.cancelled && !k.relay.Stopped? && !k.relay.Starting? ==> h.At(k.side).cancel == Some(c))
    && (h.At(k.side).peer == Some(c) && k.relay.Stopped? ==> k.cancelled || h.done)
    && (k.relay.Starting? ==> h.locked == Some(k.side) && h.At(k.side).peer == Some(c))
  }

  ghost predicate AllAccounted(h: Hub) {
    forall c {:trigger h.conns[c]} :: 0 <= c < |h.conns| ==> Accounted(h, c)
  }

  // A step of connection d's relay leaves the others and the slots alone.
  ghost predicate OnlyRelay(h: Hub, h': Hub, d: ConnId) {
    && |h'.conns| == |h.conns| && h'.done == h.done && h'.locked == h.locked
    && (forall side: Side :: h'.At(side).peer == h.At(side).peer && h'.At(side).cancel == h.At(side).cancel)
    && forall c {:trigger h'.conns[c]} :: 0 <= c < |h.conns| ==>
         && h'.conns[c].side == h.conns[c].side && h'.conns[c].closed == h.conns[c].closed
         && h'.conns[c].cancelled == h.conns[c].cancelled
         && (c != d ==> h'.conns[c].relay == h.conns[c].relay)
  }

  lemma OnlyRelayKeeps(h: Hub, h': Hub, d: ConnId)
    requires AllAccounted(h) && OnlyRelay(h, h', d)
    requires d < |h.conns| ==> !h.conns[d].relay.Stopped? && !h'.conns[d].relay.Starting?
    requires d < |h.conns| && h'.conns[d].relay.Stopped? ==> h.conns[d].cancelled || h.done
    requires d < |h.conns| ==> !h.conns[d].relay.Starting?
    ensures AllAccounted(h')
  {
    forall c | 0 <= c < |h'.conns|
      ensures Accounted(h', c)
    {
      assert Accounted(h, c);
    }
  }

  // The steps of one relay, the clearing of its slot aside.
  lemma RelayStepIsOnlyRelay(h: Hub, e: Event)
    requires h.WellFormed() && Enabled(h, e)
    requires e.CheckContext? || e.Receive? || e.ReceiveError? || e.ReadPeer?
    ensures OnlyRelay(h, Apply(h, e), e.c)
  {
  }

  lemma SendIsOnlyRelay(h: Hub, e: Event)
    requires h.WellFormed() && Enabled(h, e) && (e.SendOk? || e.SendFail?)
    ensures OnlyRelay(h, Apply(h, e), e.c)
  {
    assert h.RelayOk(e.c);
  }

  lemma EnqueueIsOnlyRelay(h: Hub, c: ConnId)
    requires h.WellFormed() && Enabled(h, Enqueue(c))
    ensures OnlyRelay(h, Apply(h, Enqueue(c)), c)
  {
  }

  lemma DrainSendIsOnlyRelay(h: Hub, ok: bool)
    requires h.WellFormed() && Enabled(h, DrainSend(ok))
    ensures OnlyRelay(h, Apply(h, DrainSend(ok)), |h.conns|)
  {
  }

  lemma ClearSlotKeepsAccounted(h: Hub, d: ConnId)
    requires h.WellFormed() && AllAccounted(h) && Enabled(h, ClearSlot(d))
    ensures AllAccounted(Apply(h, ClearSlot(d)))
  {
    var h' := Apply(h, ClearSlot(d));
    assert h'.conns == h.Moved(d, Stopped).conns;
    forall c | 0 <= c < |h'.conns|
      ensures Accounted(h', c)
    {
      assert Accounted(h, c);
    }
  }

  // The predecessor's flags, and nothing else.
  lemma RetiredAt(h: Hub, side: Side, c: ConnId)
    requires h.WellFormed() && c < |h.conns|
    ensures |Retired(h, side).conns| == |h.conns|
    ensures Retired(h, side).conns[c] == h.conns[c].(
      cancelled := h.conns[c].cancelled || h.At(side).cancel == Some(c),
      closed := h.conns[c].closed || h.At(side).peer == Some(c))
  {
  }

  lemma RegisterKeepsAccounted(h: Hub, side: Side)
    requires h.WellFormed() && AllAccounted(h) && Enabled(h, Register(side))
    ensures AllAccounted(Apply(h, Register(side)))
  {
    RetiredOnlyFlags(h, side);
    var h' := Apply(h, Register(side));
    assert h'.conns == Retired(h, side).conns + [Conn(side, Starting, false, false, false, 0, [])];
    forall c | 0 <= c < |h'.conns|
      ensures Accounted(h', c)
    {
      if c < |h.conns| {
        assert Accounted(h, c);
        RetiredAt(h, side, c);
      }
    }
  }

  lemma EndRegisterKeepsAccounted(h: Hub)
    requires h.WellFormed() && AllAccounted(h) && Enabled(h, EndRegister) && OldCancelled(h)
    ensures AllAccounted(Apply(h, EndRegister))
  {
    var h' := Apply(h, EndRegister);
    forall c | 0 <= c < |h'.conns|
      ensures Accounted(h', c)
    {
      assert Accounted(h, c);
    }
  }

  // While a registration drains, the relay it replaces is cancelled already.
  ghost predicate OldCancelled(h: Hub) {
    h.locked.Some? ==>
      var former := h.At(h.locked.value).cancel;
      former.Some? && former.value < |h.conns| ==> h.conns[former.value].cancelled
  }

  lemma StepKeepsOldCancelled(h: Hub, e: Event)
    requires h.WellFormed() && OldCancelled(h) && Enabled(h, e)
    ensures OldCancelled(Apply(h, e))
  {
    match e
    case CheckContext(_) => RelayStepIsOnlyRelay(h, e);
    case Receive(_) => RelayStepIsOnlyRelay(h, e);
    case ReceiveError(_) => RelayStepIsOnlyRelay(h, e);
    case ClearSlot(_) =>
    case ReadPeer(_) => RelayStepIsOnlyRelay(h, e);
    case SendOk(_) => SendIsOnlyRelay(h, e);
    case SendFail(_) => SendIsOnlyRelay(h, e);
    case Enqueue(c) => EnqueueIsOnlyRelay(h, c);
    case Register(side) => RegisterCancelsOld(h, side);
    case DrainSend(ok) => DrainSendIsOnlyRelay(h, ok);
    case EndRegister =>
    case SwapBackend =>
    case CloseHub =>
    case EndContext =>
  }

  lemma RegisterCancelsOld(h: Hub, side: Side)
    requires h.WellFormed() && Enabled(h, Register(side))
    ensures OldCancelled(Apply(h, Register(side)))
  {
    var former := h.At(side).cancel;
    if former.Some? {
      RetiredAt(h, side, former.value);
      assert Apply(h, Register(side)).conns[former.value] == Retired(h, side).conns[former.value];
    }
  }

  lemma SwapKeepsAccounted(h: Hub)
    requires h.WellFormed() && AllAccounted(h) && Enabled(h, SwapBackend)
    ensures AllAccounted(Apply(h, SwapBackend))
  {
    var h' := Apply(h, SwapBackend);
    assert h'.conns == Retired(h, Backend).conns;
    RetiredOnlyFlags(h, Backend);
    forall c | 0 <= c < |h'.conns|
      ensures Accounted(h', c)
    {
      assert Accounted(h, c);
      RetiredAt(h, Backend, c);
    }
  }

  lemma CloseKeepsAccounted(h: Hub)
    requires h.WellFormed() && AllAccounted(h) && Enabled(h, CloseHub)
    ensures AllAccounted(Apply(h, CloseHub))
  {
    CloseOnlyFlags(h);
    var h' := Apply(h, CloseHub);
    forall c | 0 <= c < |h'.conns|
      ensures Accounted(h', c)
    {
      assert Accounted(h, c);
      CloseAt(h, c);
    }
  }

  lemma FlagAt(h: Hub, x: Option<ConnId>, c: ConnId)
    requires c < |h.conns|
    ensures |Cancelled(h, x).conns| == |Closed(h, x).conns| == |h.conns|
    ensures Cancelled(h, x).conns[c] == h.conns[c].(cancelled := h.conns[c].cancelled || x == Some(c))
    ensures Closed(h, x).conns[c] == h.conns[c].(closed := h.conns[c].closed || x == Some(c))
  {
  }

  // What a shutdown does to each connection.
  lemma CloseAt(h: Hub, c: ConnId)
    requires h.WellFormed() && Enabled(h, CloseHub) && c < |h.conns|
    ensures |Apply(h, CloseHub).conns| == |h.conns| && Apply(h, CloseHub).done == h.done
    ensures Apply(h, CloseHub).conns[c] == h.conns[c].(
      cancelled := h.conns[c].cancelled || h.shell.cancel == Some(c) || h.backend.cancel == Some(c),
      closed := h.conns[c].closed || h.shell.peer == Some(c) || h.backend.peer == Some(c))
  {
    var h1 := Cancelled(h, h.shell.cancel);
    var h2 := Cancelled(h1, h.backend.cancel);
    FlagAt(h, h.shell.cancel, c);
    FlagAt(h1, h.backend.cancel, c);
    FlagAt(h2, h.shell.peer, c);
    FlagAt(Closed(h2, h.shell.peer), h.backend.peer, c);
  }

  lemma StepKeepsAccounted(h: Hub, e: Event)
    requires h.WellFormed() && AllAccounted(h) && OldCancelled(h) && Enabled(h, e)
    ensures AllAccounted(Apply(h, e))
  {
    match e
    case CheckContext(c) => RelayStepIsOnlyRelay(h, e); OnlyRelayKeeps(h, Apply(h, e), c);
    case Receive(c) => RelayStepIsOnlyRelay(h, e); OnlyRelayKeeps(h, Apply(h, e), c);
    case ReceiveError(c) => RelayStepIsOnlyRelay(h, e); OnlyRelayKeeps(h, Apply(h, e), c);
    case ClearSlot(c) => ClearSlotKeepsAccounted(h, c);
    case ReadPeer(c) => RelayStepIsOnlyRelay(h, e); OnlyRelayKeeps(h, Apply(h, e), c);
    case SendOk(c) => SendKeepsAccounted(h, e);
    case SendFail(c) => SendKeepsAccounted(h, e);
    case Enqueue(c) => EnqueueIsOnlyRelay(h, c); OnlyRelayKeeps(h, Apply(h, e), c);
    case Register(side) => RegisterKeepsAccounted(h, side);
    case DrainSend(ok) => DrainSendKeepsAccounted(h, ok);
    case EndRegister => EndRegisterKeepsAccounted(h);
    case SwapBackend => SwapKeepsAccounted(h);
    case CloseHub => CloseKeepsAccounted(h);
    case EndContext => EndContextKeepsAccounted(h);
  }

  lemma SendKeepsAccounted(h: Hub, e: Event)
    requires h.WellFormed() && AllAccounted(h) && Enabled(h, e) && (e.SendOk? || e.SendFail?)
    ensures AllAccounted(Apply(h, e))
  {
    assert h.RelayOk(e.c);
    SendIsOnlyRelay(h, e);
    OnlyRelayKeeps(h, Apply(h, e), e.c);
  }

  lemma DrainSendKeepsAccounted(h: Hub, ok: bool)
    requires h.WellFormed() && AllAccounted(h) && Enabled(h, DrainSend(ok))
    ensures AllAccounted(Apply(h, DrainSend(ok)))
  {
    DrainSendIsOnlyRelay(h, ok);
    OnlyRelayKeeps(h, Apply(h, DrainSend(ok)), |h.conns|);
  }

  lemma EndContextKeepsAccounted(h: Hub)
    requires AllAccounted(h) && h.WellFormed()
    ensures AllAccounted(Apply(h, EndContext))
  {
    var h' := Apply(h, EndContext);
    forall c | 0 <= c < |h'.conns|
      ensures Accounted(h', c)
    {
      assert Accounted(h, c);
    }
  }

  lemma {:induction false} RunKeepsAccounted(h: Hub, run: seq<Event>, h': Hub)
    requires Inv(h) && AllAccounted(h) && OldCancelled(h) && Runs(h, run, h')
    ensures h'.WellFormed() && AllAccounted(h') && OldCancelled(h')
    decreases |run|
  {
    if run != [] {
      StepKeepsInv(h, run[0]);
      StepKeepsAccounted(h, run[0]);
      StepKeepsOldCancelled(h, run[0]);
      RunKeepsAccounted(Apply(h, run[0]), run[1..], h');
    }
  }

  // Under every interleaving each side has at most one open connection whose relay
  // runs, which is the one in the slot; and a relay that is done for without having
  // been cancelled has left its slot.
  lemma {:induction false} OneLivePerSide(run: seq<Event>, h: Hub, c: ConnId)
    requires Inv(START) && Runs(START, run, h) && c < |h.conns|
    ensures !h.conns[c].closed && !h.conns[c].relay.Stopped? ==> h.At(h.conns[c].side).peer == Some(c)
    ensures !h.conns[c].cancelled && !h.conns[c].relay.Stopped? ==>
      h.At(h.conns[c].side).cancel == Some(c) || (h.conns[c].relay.Starting? && h.At(h.conns[c].side).peer == Some(c))
    ensures h.conns[c].relay.Stopped? && !h.conns[c].cancelled && !h.done ==> h.At(h.conns[c].side).peer != Some(c)
  {
    RunKeepsAccounted(START, run, h);
    assert Accounted(h, c);
  }

  // ----- A cancelled relay stops -----

  // What a relay has read, and the message it may be about to read.
  ghost function Reading(h: Hub, c: ConnId): nat
    requires c < |h.conns|
  {
    h.conns[c].read + if h.conns[c].relay.Receiving? then 1 else 0
  }

  ghost predicate Ending(h: Hub, c: ConnId) {
    c < |h.conns| && (h.conns[c].cancelled || h.done)
  }

  lemma StepKeepsEnding(h: Hub, e: Event, c: ConnId)
    requires h.WellFormed() && Ending(h, c) && Enabled(h, e)
    ensures Ending(Apply(h, e), c) && Reading(Apply(h, e), c) <= Reading(h, c)
  {
    match e
    case CheckContext(_) => RelayStepKeepsEnding(h, e, c);
    case Receive(_) => RelayStepKeepsEnding(h, e, c);
    case ReceiveError(_) => RelayStepKeepsEnding(h, e, c);
    case ClearSlot(_) => LockedStepKeepsEnding(h, e, c);
    case ReadPeer(_) => RelayStepKeepsEnding(h, e, c);
    case SendOk(_) => SendKeepsEnding(h, e, c);
    case SendFail(_) => SendKeepsEnding(h, e, c);
    case Enqueue(_) => LockedStepKeepsEnding(h, e, c);
    case Register(side) => RegisterKeepsEnding(h, side, c);
    case DrainSend(_) =>
    case EndRegister =>
    case SwapBackend => SwapKeepsEnding(h, c);
    case CloseHub => CloseAt(h, c);
    case EndContext =>
  }

  lemma RelayStepKeepsEnding(h: Hub, e: Event, c: ConnId)
    requires h.WellFormed() && Ending(h, c) && Enabled(h, e)
    requires e.CheckContext? || e.Receive? || e.ReceiveError? || e.ReadPeer?
    ensures Ending(Apply(h, e), c) && Reading(Apply(h, e), c) <= Reading(h, c)
  {
  }

  lemma LockedStepKeepsEnding(h: Hub, e: Event, c: ConnId)
    requires h.WellFormed() && Ending(h, c) && Enabled(h, e) && (e.ClearSlot? || e.Enqueue?)
    ensures Ending(Apply(h, e), c) && Reading(Apply(h, e), c) <= Reading(h, c)
  {
  }

  lemma SendKeepsEnding(h: Hub, e: Event, c: ConnId)
    requires h.WellFormed() && Ending(h, c) && Enabled(h, e) && (e.SendOk? || e.SendFail?)
    ensures Ending(Apply(h, e), c) && Reading(Apply(h, e), c) <= Reading(h, c)
  {
    assert h.RelayOk(e.c);
  }

  lemma RegisterKeepsEnding(h: Hub, side: Side, c: ConnId)
    requires h.WellFormed() && Ending(h, c) && Enabled(h, Register(side))
    ensures Ending(Apply(h, Register(side)), c) && Reading(Apply(h, Register(side)), c) == Reading(h, c)
  {
    RetiredAt(h, side, c);
    assert Apply(h, Register(side)).conns[c] == Retired(h, side).conns[c];
  }

  lemma SwapKeepsEnding(h: Hub, c: ConnId)
    requires h.WellFormed() && Ending(h, c) && Enabled(h, SwapBackend)
    ensures Ending(Apply(h, SwapBackend), c) && Reading(Apply(h, SwapBackend), c) == Reading(h, c)
  {
    RetiredAt(h, Backend, c);
    assert Apply(h, SwapBackend).conns == Retired(h, Backend).conns;
  }

  // Once its context is done, a relay reads at most the message it is waiting for.
  lemma {:induction false} EndingRelayStops(h: Hub, run: seq<Event>, h': Hub, c: ConnId)
    requires Inv(h) && Ending(h, c) && Runs(h, run, h')
    ensures c < |h'.conns|
    ensures h'.conns[c].read <= h.conns[c].read + if h.conns[c].relay.Receiving? then 1 else 0
    decreases |run|
  {
    EndingRuns(h, run, h', c);
  }

  lemma {:induction false} EndingRuns(h: Hub, run: seq<Event>, h': Hub, c: ConnId)
    requires Inv(h) && Ending(h, c) && Runs(h, run, h')
    ensures c < |h'.conns| && Reading(h', c) <= Reading(h, c)
    decreases |run|
  {
    if run != [] {
      StepKeepsInv(h, run[0]);
      StepKeepsEnding(h, run[0], c);
      EndingRuns(Apply(h, run[0]), run[1..], h', c);
    }
  }

  // ----- Shutdown, end of the context, registration and swap -----

  // After a shutdown, or the end of the context, whatever runs on, every relay reads
  // at most one more message; a shutdown also leaves no open connection with a relay.
  lemma {:induction false} ShutdownStopsAll(before: seq<Event>, h: Hub, e: Event, run: seq<Event>, h': Hub, c: ConnId)
    requires Inv(START) && Runs(START, before, h) && Inv(h) && (e == CloseHub || e == EndContext) && Enabled(h, e)
    requires Inv(Apply(h, e)) && Runs(Apply(h, e), run, h') && c < |h.conns|
    ensures c < |h'.conns|
    ensures !h.conns[c].relay.Stopped? ==> h'.conns[c].read <= h.conns[c].read + 1
    ensures e == CloseHub && !h.conns[c].relay.Stopped? ==> Apply(h, e).conns[c].closed
  {
    RunKeepsAccounted(START, before, h);
    assert Accounted(h, c);
    if e == CloseHub {
      CloseAt(h, c);
    }
    if h.conns[c].relay.Stopped? {
      RunKeepsConns(Apply(h, e), run, h', c);
    } else {
      EndingRelayStops(Apply(h, e), run, h', c);
    }
  }

  lemma {:induction false} RunKeepsConns(h: Hub, run: seq<Event>, h': Hub, c: ConnId)
    requires Inv(h) && Runs(h, run, h') && c < |h.conns|
    ensures c < |h'.conns|
    decreases |run|
  {
    if run != [] {
      StepKeepsInv(h, run[0]);
      StepKeepsSides(h, run[0]);
      RunKeepsConns(Apply(h, run[0]), run[1..], h', c);
    }
  }

  // A registration takes the slot from its predecessor, which is closed and cancelled.
  lemma RegisterReplaces(h: Hub, side: Side)
    requires h.WellFormed() && Enabled(h, Register(side))
    ensures
      var h' := Apply(h, Register(side));
      && |h'.conns| == |h.conns| + 1 && h'.At(side).peer == Some(|h.conns|) && h'.conns[|h.conns|].side == side
      && h'.At(Other(side)) == h.At(Other(side)) && h'.At(side).queue == h.At(side).queue
      && (h.At(side).peer.Some? ==> h'.conns[h.At(side).peer.value].closed)
      && (h.At(side).cancel.Some? ==> h'.conns[h.At(side).cancel.value].cancelled)
  {
    var h' := Apply(h, Register(side));
    assert h'.conns == Retired(h, side).conns + [Conn(side, Starting, false, false, false, 0, [])];
    RetiredOnlyFlags(h, side);
    if h.At(side).peer.Some? {
      RetiredAt(h, side, h.At(side).peer.value);
    }
    if h.At(side).cancel.Some? {
      RetiredAt(h, side, h.At(side).cancel.value);
    }
  }

  ghost predicate NoneRegisters(run: seq<Event>, side: Side) {
    forall k :: 0 <= k < |run| ==> run[k] != Register(side)
  }

  lemma {:induction false} EmptySlotStays(h: Hub, run: seq<Event>, h': Hub, side: Side)
    requires Inv(h) && Runs(h, run, h') && h.At(side).peer.None? && NoneRegisters(run, side)
    ensures h'.At(side).peer.None?
    decreases |run|
  {
    if run != [] {
      StepKeepsInv(h, run[0]);
      if run[0].Register? {
        assert run[0].side != side;
        RegisterReplaces(h, run[0].side);
        assert Apply(h, run[0]).At(side) == h.At(side);
      } else {
        StepKeepsPeers(h, run[0], side);
      }
      EmptySlotStays(Apply(h, run[0]), run[1..], h', side);
    }
  }

  // After a swap, and until another backend registers, a message for the backend is
  // queued and not sent.
  lemma {:induction false} SwappedQueues(h: Hub, run: seq<Event>, h': Hub, c: ConnId)
    requires Inv(h) && Enabled(h, SwapBackend) && Inv(Apply(h, SwapBackend))
    requires Runs(Apply(h, SwapBackend), run, h') && NoneRegisters(run, Backend)
    requires h'.WellFormed() && Enabled(h', ReadPeer(c)) && h'.conns[c].side == Shell
    ensures Apply(h', ReadPeer(c)).conns[c].relay == Queueing(h'.conns[c].relay.m)
  {
    EmptySlotStays(Apply(h, SwapBackend), run, h', Backend);
  }

  // The same after the backend's relay has left its slot.
  lemma {:induction false} DisconnectedQueues(h: Hub, d: ConnId, run: seq<Event>, h': Hub, c: ConnId)
    requires Inv(h) && Enabled(h, ClearSlot(d)) && Inv(Apply(h, ClearSlot(d)))
    requires h.At(h.conns[d].side).peer == Some(d)
    requires Runs(Apply(h, ClearSlot(d)), run, h') && NoneRegisters(run, h.conns[d].side)
    requires h'.WellFormed() && Enabled(h', ReadPeer(c)) && h'.Dest(c) == h.conns[d].side
    ensures Apply(h', ReadPeer(c)).conns[c].relay == Queueing(h'.conns[c].relay.m)
  {
    EmptySlotStays(Apply(h, ClearSlot(d)), run, h', h.conns[d].side);
  }

  // A message for a side with a connection in its slot is sent to that connection.
  lemma ReadsThePeer(h: Hub, c: ConnId, p: ConnId)
    requires h.WellFormed() && Enabled(h, ReadPeer(c)) && h.At(h.Dest(c)).peer == Some(p)
    ensures Apply(h, ReadPeer(c)).conns[c].relay == Sending(h.conns[c].relay.m, p)
    ensures p < |h.conns| && h.conns[p].side != h.conns[c].side
  {
  }
}
