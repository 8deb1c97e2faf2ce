// The hub's own methods, each run without interruption (hotswap/hub.go,
// hotswap/swap.go): what they leave in the fields is a run of the protocol's steps.
module HubMachine {
  import opened Wrappers
  import opened HubProtocol
  import opened HubConservation

  // The steps of one registration whose sends have these outcomes.
  ghost function Registration(side: Side, sent: seq<bool>): seq<Event> {
    [Event.Register(side)] + Drains(sent) + [EndRegister]
  }

  ghost function Drains(sent: seq<bool>): seq<Event> {
    seq(|sent|, i requires 0 <= i < |sent| => DrainSend(sent[i]))
  }

  ghost function Delivery(c: ConnId, delivered: bool): seq<Event> {
    if delivered then [SendOk(c)] else [SendFail(c)] + [Enqueue(c)]
  }

  // The steps that pass on the message connection c's relay holds.
  ghost function Passing(h: Hub, c: ConnId, delivered: bool): seq<Event>
    requires c < |h.conns|
  {
    [ReadPeer(c)] + if h.At(h.Dest(c)).peer.None? then [Enqueue(c)] else Delivery(c, delivered)
  }

  // The steps of one turn of its loop.
  ghost function Turn(h: Hub, c: ConnId, received: bool, delivered: bool): seq<Event>
    requires c < |h.conns|
  {
    if h.conns[c].cancelled || h.done then [CheckContext(c)]
    else if !received then [CheckContext(c), ReceiveError(c), ClearSlot(c)]
    else [CheckContext(c), Receive(c)] + Passing(h, c, delivered)
  }

  // The messages of a queue whose send had this outcome, in order.
  ghost function Chosen(queue: seq<Msg>, sent: seq<bool>, outcome: bool): seq<Msg>
    requires |sent| == |queue|
  {
    if queue == [] then [] else
      var n := |queue| - 1;
      Chosen(queue[..n], sent[..n], outcome) + if sent[n] == outcome then [queue[n]] else []
  }

  // Message m of connection c went to the peer of the other side, or into its queue.
  ghost predicate Handed(h: Hub, h': Hub, c: ConnId, m: Msg, delivered: bool)
    requires c < |h.conns|
  {
    var before, after := h.At(h.Dest(c)), h'.At(h.Dest(c));
    && c < |h'.conns| && h'.conns[c].relay.Top? && h'.lost == h.lost
    && after.peer == before.peer && h'.At(h.conns[c].side) == h.At(h.conns[c].side)
    && if before.peer.Some? && delivered
       then after.out == before.out + [m] && after.queue == before.queue
       else after.queue == before.queue + [m] && after.out == before.out
  }

  class RelayHub {
    var conns: seq<Conn>
    var shell: Slot
    var backend: Slot
    var lost: seq<Msg>
    // Whether the context that Run was given has ended.
    var done: bool

    ghost function View(): Hub
      reads this
    {
      Hub(conns, shell, backend, lost, None, done)
    }

    constructor ()
      ensures View() == START && Inv(View())
    {
      conns, shell, backend, lost, done := [], EMPTY, EMPTY, [], false;
      new;
      StartInv();
    }

    method CancelRelay(relay: Option<ConnId>)
      modifies this`conns
      ensures View() == Cancelled(old(View()), relay)
      ensures |conns| == |old(conns)|
      ensures forall k: nat :: k < |conns| ==>
        conns[k] == old(conns[k]).(cancelled := old(conns[k]).cancelled || relay == Some(k))
    {
      if relay.Some? && relay.value < |conns| {
        conns := conns[relay.value := conns[relay.value].(cancelled := true)];
      }
    }

    method CloseConn(conn: Option<ConnId>)
      modifies this`conns
      ensures View() == Closed(old(View()), conn)
      ensures |conns| == |old(conns)|
      ensures forall k: nat :: k < |conns| ==>
        conns[k] == old(conns[k]).(closed := old(conns[k]).closed || conn == Some(k))
    {
      if conn.Some? && conn.value < |conns| {
        conns := conns[conn.value := conns[conn.value].(closed := true)];
      }
    }

    method SetSlot(side: Side, slot: Slot)
      modifies this`shell, this`backend
      ensures View() == old(View()).With(side, slot)
    {
      if side == Shell {
        shell := slot;
      } else {
        backend := slot;
      }
    }

    // registerShell and registerBackend, mirror images: cancel and close the
    // predecessor, take the slot, drain the queue to the new connection, start its relay.
    method Register(side: Side, sent: seq<bool>)
      requires Inv(View()) && |sent| == |View().At(side).queue|
      modifies this
      ensures Inv(View()) && Runs(old(View()), Registration(side, sent), View())
      ensures |conns| == |old(conns)| + 1 && conns[|old(conns)|].relay.Top? && conns[|old(conns)|].side == side
      ensures View().At(side).peer == View().At(side).cancel == Some(|old(conns)|) && View().At(side).queue == []
      ensures View().At(side).out ==
        old(View().At(side).out) + Chosen(old(View().At(side).queue), sent, true)
      ensures lost == old(lost) + Chosen(old(View().At(side).queue), sent, false)
      ensures View().At(Other(side)) == old(View().At(Other(side)))
    {
      ghost var start := View();
      var slot := if side == Shell then shell else backend;
      var id := |conns|;
      OneStep(start, Event.Register(side));
      Install(side, slot);
      ghost var mid := Draining(side, slot.queue);
      DrainAll(side, id, slot.queue, sent);
      RunsConcat(start, [Event.Register(side)], mid, Drains(sent), Draining(side, []));
      RunsThen(start, [Event.Register(side)] + Drains(sent), Draining(side, []), EndRegister);
      Finish(side, id);
    }

    // The queue is sent to the new connection while the write lock is held.
    method DrainAll(side: Side, id: ConnId, queue: seq<Msg>, sent: seq<bool>)
      requires Inv(Draining(side, queue)) && |sent| == |queue|
      requires id < |conns| && View().At(side).peer == Some(id)
      modifies this
      ensures Inv(Draining(side, [])) && Runs(old(Draining(side, queue)), Drains(sent), Draining(side, []))
      ensures |conns| == |old(conns)| && conns[id].side == old(conns[id].side)
      ensures View().At(side) == old(View().At(side)).(out := old(View().At(side).out) + Chosen(queue, sent, true))
      ensures lost == old(lost) + Chosen(queue, sent, false) && View().At(Other(side)) == old(View().At(Other(side)))
    {
      ghost var start, before := Draining(side, queue), View();
      assert queue[0..] == queue && queue[..0] == [] && sent[..0] == [];
      for i := 0 to |queue|
        invariant Inv(start) && Runs(start, Drains(sent[..i]), Draining(side, queue[i..]))
        invariant Inv(Draining(side, queue[i..])) && id < |conns|
        invariant Drained(before, side, id, queue[..i], sent[..i])
      {
        DrainedMore(start, sent, i, Draining(side, queue[i..]));
        DrainStep(before, side, id, queue, sent, i);
      }
      assert sent[..|queue|] == sent && queue[..|queue|] == queue;
    }

    // What has changed since `before` once these messages are drained.
    ghost predicate Drained(before: Hub, side: Side, id: ConnId, queue: seq<Msg>, sent: seq<bool>)
      requires |sent| == |queue| && id < |before.conns|
      reads this
    {
      && |conns| == |before.conns| && conns[id].side == before.conns[id].side
      && View().At(side) == before.At(side).(out := before.At(side).out + Chosen(queue, sent, true))
      && lost == before.lost + Chosen(queue, sent, false) && View().At(Other(side)) == before.At(Other(side))
    }

    // One iteration of the loop.
    method DrainStep(ghost before: Hub, side: Side, id: ConnId, queue: seq<Msg>, sent: seq<bool>, i: nat)
      requires i < |queue| == |sent| && id < |before.conns| && before.At(side).peer == Some(id)
      requires Draining(side, queue[i..]).WellFormed() && Drained(before, side, id, queue[..i], sent[..i])
      modifies this
      ensures Draining(side, queue[i + 1..]) == Apply(old(Draining(side, queue[i..])), DrainSend(sent[i]))
      ensures Drained(before, side, id, queue[..i + 1], sent[..i + 1])
    {
      assert queue[i..][1..] == queue[i + 1..];
      ChosenNext(before.At(side).out, queue, sent, true, i);
      ChosenNext(before.lost, queue, sent, false, i);
      DrainNext(side, id, queue[i..], sent[i]);
    }

    // The hub while this much of the queue is still to be drained.
    ghost function Draining(side: Side, rest: seq<Msg>): Hub
      reads this
    {
      View().With(side, View().At(side).(queue := rest)).(locked := Some(side))
    }

    method Install(side: Side, slot: Slot)
      requires View().WellFormed() && slot == View().At(side)
      modifies this
      ensures Draining(side, slot.queue) == Apply(old(View()), Event.Register(side))
      ensures |conns| == |old(conns)| + 1 && conns[|old(conns)|].side == side && lost == old(lost)
      ensures View().At(side) == slot.(peer := Some(|old(conns)|))
      ensures View().At(Other(side)) == old(View().At(Other(side)))
    {
      var id := |conns|;
      CancelRelay(slot.cancel);
      CloseConn(slot.peer);
      SetSlot(side, slot.(peer := Some(id)));
      conns := conns + [Conn(side, Starting, false, false, false, 0, [])];
    }

    // One message of the queue; a failed send loses it.
    method DrainNext(side: Side, id: ConnId, rest: seq<Msg>, ok: bool)
      requires id < |conns| && View().At(side).peer == Some(id) && rest != []
      requires Draining(side, rest).WellFormed()
      modifies this
      ensures Draining(side, rest[1..]) == Apply(old(Draining(side, rest)), DrainSend(ok))
      ensures |conns| == |old(conns)| && conns[id].side == old(conns[id].side)
      ensures View().At(side) == old(View().At(side)).(
        out := old(View().At(side).out) + if ok then [rest[0]] else [])
      ensures lost == old(lost) + (if ok then [] else [rest[0]])
      ensures View().At(Other(side)) == old(View().At(Other(side)))
    {
      if ok {
        SendTo(id, side, rest[0]);
      } else {
        conns := conns[id := conns[id].(failed := true)];
        lost := lost + [rest[0]];
      }
    }

    method Finish(side: Side, id: ConnId)
      requires id < |conns| && View().At(side).peer == Some(id) && Draining(side, []).WellFormed()
      modifies this
      ensures View() == Apply(old(Draining(side, [])), EndRegister)
      ensures |conns| == |old(conns)| && conns[id] == old(conns[id]).(relay := Top)
      ensures View().At(side) == old(View().At(side)).(queue := [], cancel := Some(id)) && lost == old(lost)
      ensures View().At(Other(side)) == old(View().At(Other(side)))
    {
      var slot := if side == Shell then shell else backend;
      SetSlot(side, slot.(queue := [], cancel := Some(id)));
      MoveTo(id, Top);
    }

    method RegisterShell(sent: seq<bool>)
      requires Inv(View()) && |sent| == |shell.queue|
      modifies this
      ensures Inv(View()) && Runs(old(View()), Registration(Shell, sent), View())
    {
      Register(Shell, sent);
    }

    method RegisterBackend(sent: seq<bool>)
      requires Inv(View()) && |sent| == |backend.queue|
      modifies this
      ensures Inv(View()) && Runs(old(View()), Registration(Backend, sent), View())
    {
      Register(Backend, sent);
    }

    // The context that Run was given ends, and with it every relay's.
    method EndContext()
      requires Inv(View())
      modifies this`done
      ensures Inv(View()) && View() == Apply(old(View()), Event.EndContext) && done
    {
      StepKeepsInv(View(), Event.EndContext);
      done := true;
    }

    // The swap step: the backend is disconnected and its relay cancelled.
    method Swap()
      requires Inv(View())
      modifies this
      ensures Inv(View()) && View() == Apply(old(View()), SwapBackend)
      ensures backend == old(backend).(peer := None, cancel := None)
      ensures shell == old(shell) && lost == old(lost) && done == old(done) && |conns| == |old(conns)|
      ensures forall k: nat :: k < |conns| ==>
        conns[k] == old(conns[k]).(cancelled := old(conns[k]).cancelled || old(backend).cancel == Some(k),
                                   closed := old(conns[k]).closed || old(backend).peer == Some(k))
    {
      StepKeepsInv(View(), SwapBackend);
      ghost var start := View();
      var cancel := backend.cancel;
      CloseConn(backend.peer);
      backend := backend.(peer := None);
      CancelRelay(cancel);
      backend := backend.(cancel := None);
      assert View().conns == Apply(start, SwapBackend).conns;
    }

    // Shutting down: both relays are cancelled, both connections closed.
    method Close()
      requires Inv(View())
      modifies this`conns
      ensures Inv(View()) && View() == Apply(old(View()), CloseHub)
      ensures |conns| == |old(conns)|
      ensures forall k: nat :: k < |conns| ==>
        conns[k] == old(conns[k]).(
          cancelled := old(conns[k]).cancelled || shell.cancel == Some(k) || backend.cancel == Some(k),
          closed := old(conns[k]).closed || shell.peer == Some(k) || backend.peer == Some(k))
    {
      StepKeepsInv(View(), CloseHub);
      CancelRelay(shell.cancel);
      CancelRelay(backend.cancel);
      CloseConn(shell.peer);
      CloseConn(backend.peer);
    }

    // One turn of relayShellToBackend or relayBackendToShell: `received` says
    // whether the receive succeeds, `delivered` whether the send does.
    method RelayTurn(c: ConnId, received: bool, delivered: bool)
      requires Inv(View()) && c < |conns| && conns[c].relay.Top?
      modifies this
      ensures Inv(View()) && Runs(old(View()), Turn(old(View()), c, received, delivered), View())
      ensures c < |conns|
      ensures old(conns[c].cancelled || done) ==>
        View() == old(View()).Moved(c, Stopped)
      ensures !old(conns[c].cancelled || done) && !received ==>
        conns[c].relay.Stopped? && View().At(conns[c].side).peer != Some(c) && conns[c].read == old(conns[c].read)
      ensures !old(conns[c].cancelled || done) && received ==>
        Handed(old(View()), View(), c, Msg(c, old(conns[c].read)), delivered)
    {
      ghost var start := View();
      OneStep(start, CheckContext(c));
      if conns[c].cancelled || done {
        MoveTo(c, Stopped);
        return;
      }
      MoveTo(c, Receiving);
      ghost var mid := View();
      if !received {
        GiveUp(c);
        RunsConcat(start, [CheckContext(c)], mid, [ReceiveError(c), ClearSlot(c)], View());
        return;
      }
      OneStep(mid, Receive(c));
      TakeNext(c);
      ghost var mid2 := View();
      RunsConcat(start, [CheckContext(c)], mid, [Receive(c)], mid2);
      PassOn(c, delivered);
      RunsConcat(start, [CheckContext(c)] + [Receive(c)], mid2, Passing(mid2, c, delivered), View());
    }

    // The receive failed: the connection leaves its slot, if it still holds it.
    method GiveUp(c: ConnId)
      requires Inv(View()) && c < |conns| && conns[c].relay.Receiving?
      modifies this
      ensures Inv(View()) && Runs(old(View()), [ReceiveError(c), ClearSlot(c)], View())
      ensures c < |conns| && conns[c] == old(conns[c]).(relay := Stopped) && View().At(conns[c].side).peer != Some(c)
    {
      ghost var start := View();
      OneStep(start, ReceiveError(c));
      MoveTo(c, Closing);
      ghost var mid := View();
      OneStep(mid, ClearSlot(c));
      Disconnect(c);
      RunsConcat(start, [ReceiveError(c)], mid, [ClearSlot(c)], View());
    }

    method TakeNext(c: ConnId)
      requires View().WellFormed() && c < |conns| && conns[c].relay.Receiving?
      modifies this
      ensures View() == Apply(old(View()), Receive(c)) && |conns| == |old(conns)|
      ensures conns[c].relay == Holding(Msg(c, old(conns[c].read))) && conns[c].side == old(conns[c].side)
      ensures shell == old(shell) && backend == old(backend) && lost == old(lost)
    {
      conns := conns[c := conns[c].(relay := Holding(Msg(c, conns[c].read)), read := conns[c].read + 1)];
    }

    method PassOn(c: ConnId, delivered: bool)
      requires Inv(View()) && c < |conns| && conns[c].relay.Holding?
      modifies this
      ensures Inv(View()) && Runs(old(View()), Passing(old(View()), c, delivered), View())
      ensures Handed(old(View()), View(), c, old(conns[c].relay.m), delivered)
    {
      ghost var start := View();
      var msg := conns[c].relay.m;
      var peer := LookUpPeer(c);
      ghost var mid := View();
      if peer.Some? {
        Deliver(c, peer.value, msg, delivered);
        RunsConcat(start, [ReadPeer(c)], mid, Delivery(c, delivered), View());
      } else {
        OneStep(mid, Enqueue(c));
        QueueFor(c, msg);
        RunsConcat(start, [ReadPeer(c)], mid, [Enqueue(c)], View());
      }
    }

    method LookUpPeer(c: ConnId) returns (peer: Option<ConnId>)
      requires Inv(View()) && c < |conns| && conns[c].relay.Holding?
      modifies this
      ensures Inv(View()) && Runs(old(View()), [ReadPeer(c)], View())
      ensures peer == old(View().At(View().Dest(c)).peer) && c < |conns|
      ensures conns[c].relay ==
        if peer.Some? then Sending(old(conns[c].relay.m), peer.value) else Queueing(old(conns[c].relay.m))
      ensures conns[c].side == old(conns[c].side)
      ensures shell == old(shell) && backend == old(backend) && lost == old(lost)
    {
      ghost var start := View();
      var msg := conns[c].relay.m;
      peer := if conns[c].side == Shell then backend.peer else shell.peer;
      MoveTo(c, if peer.Some? then Sending(msg, peer.value) else Queueing(msg));
      OneStep(start, ReadPeer(c));
    }

    // A direct send, and the queueing of a message it could not deliver.
    method Deliver(c: ConnId, p: ConnId, msg: Msg, delivered: bool)
      requires Inv(View()) && c < |conns| && conns[c].relay == Sending(msg, p)
      modifies this
      ensures Inv(View()) && Runs(old(View()), Delivery(c, delivered), View())
      ensures old(View()).At(old(View()).Dest(c)).peer.Some? ==> Handed(old(View()), View(), c, msg, delivered)
      ensures !delivered ==> Handed(old(View()), View(), c, msg, delivered)
    {
      ghost var start := View();
      OneStep(start, if delivered then SendOk(c) else SendFail(c));
      SendOrFail(c, p, msg, delivered);
      if !delivered {
        ghost var mid := View();
        FailedIsQueueing(start, c);
        OneStep(mid, Enqueue(c));
        QueueFor(c, msg);
        RunsConcat(start, [SendFail(c)], mid, [Enqueue(c)], View());
      }
    }

    method MoveTo(c: ConnId, relay: Relay)
      requires c < |conns|
      modifies this`conns
      ensures View() == old(View()).Moved(c, relay)
    {
      conns := conns[c := conns[c].(relay := relay)];
    }

    method Disconnect(c: ConnId)
      requires View().WellFormed() && Enabled(View(), ClearSlot(c))
      modifies this
      ensures View() == Apply(old(View()), ClearSlot(c))
      ensures c < |conns| && conns[c] == old(conns[c]).(relay := Stopped) && View().At(conns[c].side).peer != Some(c)
    {
      if conns[c].side == Shell && shell.peer == Some(c) {
        shell := shell.(peer := None);
      } else if conns[c].side == Backend && backend.peer == Some(c) {
        backend := backend.(peer := None);
      }
      MoveTo(c, Stopped);
    }

    method SendOrFail(c: ConnId, p: ConnId, msg: Msg, delivered: bool)
      requires View().WellFormed() && c < |conns| && conns[c].relay == Sending(msg, p)
      modifies this
      ensures View() == Apply(old(View()), if delivered then SendOk(c) else SendFail(c))
      ensures c < |conns| && conns[c].side == old(conns[c].side) && lost == old(lost)
      ensures delivered ==> conns[c].relay == Top
      ensures delivered ==>
        View().At(Other(conns[c].side)) ==
          old(View().At(Other(conns[c].side))).(out := old(View().At(Other(conns[c].side)).out) + [msg])
      ensures !delivered ==> conns[c].relay == Queueing(msg) && shell == old(shell) && backend == old(backend)
      ensures View().At(conns[c].side) == old(View().At(conns[c].side))
    {
      assert View().RelayOk(c);
      if delivered {
        MoveTo(c, Top);
        SendTo(p, Other(conns[c].side), msg);
      } else {
        MoveTo(c, Queueing(msg));
        conns := conns[p := conns[p].(failed := true)];
      }
    }

    method SendTo(p: ConnId, side: Side, m: Msg)
      requires p < |conns|
      modifies this
      ensures View() == Written(old(View()), side, p, m)
    {
      conns := conns[p := conns[p].(written := conns[p].written + [m])];
      if side == Shell {
        shell := shell.(out := shell.out + [m]);
      } else {
        backend := backend.(out := backend.out + [m]);
      }
    }

    method QueueFor(c: ConnId, msg: Msg)
      requires View().WellFormed() && c < |conns| && conns[c].relay == Queueing(msg)
      modifies this
      ensures View() == Apply(old(View()), Enqueue(c))
      ensures c < |conns| && conns[c] == old(conns[c]).(relay := Top) && lost == old(lost)
      ensures View().At(Other(conns[c].side)) ==
        old(View().At(Other(conns[c].side))).(queue := old(View().At(Other(conns[c].side)).queue) + [msg])
      ensures View().At(conns[c].side) == old(View().At(conns[c].side))
    {
      MoveTo(c, Top);
      if conns[c].side == Shell {
        backend := backend.(queue := backend.queue + [msg]);
      } else {
        shell := shell.(queue := shell.queue + [msg]);
      }
    }
  }

  lemma {:induction false} ChosenNext(before: seq<Msg>, queue: seq<Msg>, sent: seq<bool>, outcome: bool, i: nat)
    requires i < |queue| == |sent|
    ensures
      before + Chosen(queue[..i + 1], sent[..i + 1], outcome) ==
      before + Chosen(queue[..i], sent[..i], outcome) + if sent[i] == outcome then [queue[i]] else []
  {
    assert queue[..i + 1][..i] == queue[..i] && sent[..i + 1][..i] == sent[..i];
  }

  lemma {:induction false} DrainedMore(h: Hub, sent: seq<bool>, i: nat, mid: Hub)
    requires Inv(h) && i < |sent| && Runs(h, Drains(sent[..i]), mid) && Enabled(mid, DrainSend(sent[i]))
    ensures Inv(mid) && Inv(Apply(mid, DrainSend(sent[i])))
    ensures Runs(h, Drains(sent[..i + 1]), Apply(mid, DrainSend(sent[i])))
  {
    RunsThen(h, Drains(sent[..i]), mid, DrainSend(sent[i]));
    assert Drains(sent[..i + 1]) == Drains(sent[..i]) + [DrainSend(sent[i])];
  }

  lemma FailedIsQueueing(h: Hub, c: ConnId)
    requires h.WellFormed() && c < |h.conns| && h.conns[c].relay.Sending?
    ensures c < |Apply(h, SendFail(c)).conns| && Apply(h, SendFail(c)).conns[c].relay == Queueing(h.conns[c].relay.m)
  {
    assert h.RelayOk(c);
  }

  lemma {:induction false} OneStep(h: Hub, e: Event)
    requires Inv(h) && Enabled(h, e)
    ensures Inv(Apply(h, e)) && Runs(h, [e], Apply(h, e))
  {
    StepKeepsInv(h, e);
  }

  lemma {:induction false} RunsConcat(h: Hub, a: seq<Event>, mid: Hub, b: seq<Event>, h': Hub)
    requires Inv(h) && Runs(h, a, mid) && Inv(mid) && Runs(mid, b, h')
    ensures Runs(h, a + b, h')
    decreases |a|
  {
    if a == [] {
      assert a + b == b;
    } else {
      StepKeepsInv(h, a[0]);
      assert (a + b)[1..] == a[1..] + b;
      RunsConcat(Apply(h, a[0]), a[1..], mid, b, h');
    }
  }
}
