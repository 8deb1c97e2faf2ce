// The peer slot, and exactly when the order of delivery is kept (hotswap/hub.go).
module HubOrdering {
  import opened Wrappers
  import opened HubProtocol
  import opened HubConservation

  // ----- The peer slot -----

  // No connection of its side registered after p.
  ghost predicate Latest(h: Hub, p: ConnId)
    requires p < |h.conns|
  {
    forall c :: p < c < |h.conns| ==> h.conns[c].side != h.conns[p].side
  }

  // A slot is empty or names the most recently registered connection.
  ghost predicate SlotsCurrent(h: Hub)
    requires h.WellFormed()
  {
    && (h.shell.peer.Some? ==> Latest(h, h.shell.peer.value))
    && (h.backend.peer.Some? ==> Latest(h, h.backend.peer.value))
  }

  lemma RelayStepKeepsSides(h: Hub, e: Event)
    requires h.WellFormed() && Enabled(h, e) && (e.SendOk? || e.SendFail? || e.ClearSlot? || e.Enqueue? || e.ReadPeer?)
    ensures |Apply(h, e).conns| == |h.conns|
    ensures forall c :: 0 <= c < |h.conns| ==> c < |Apply(h, e).conns| && Apply(h, e).conns[c].side == h.conns[c].side
  {
    assert h.RelayOk(e.c);
  }

  lemma LockedStepKeepsSides(h: Hub, e: Event)
    requires h.WellFormed() && Enabled(h, e) && (e.DrainSend? || e.EndRegister? || e.SwapBackend?)
    ensures |Apply(h, e).conns| == |h.conns|
    ensures forall c :: 0 <= c < |h.conns| ==> c < |Apply(h, e).conns| && Apply(h, e).conns[c].side == h.conns[c].side
  {
  }

  lemma StepKeepsSides(h: Hub, e: Event)
    requires h.WellFormed() && Enabled(h, e)
    ensures !e.Register? ==> |Apply(h, e).conns| == |h.conns|
    ensures forall c :: 0 <= c < |h.conns| ==> c < |Apply(h, e).conns| && Apply(h, e).conns[c].side == h.conns[c].side
  {
    match e
    case CheckContext(c) =>
    case Receive(c) =>
    case ReceiveError(c) =>
    case ClearSlot(c) => RelayStepKeepsSides(h, e);
    case ReadPeer(c) => RelayStepKeepsSides(h, e);
    case SendOk(c) => RelayStepKeepsSides(h, e);
    case SendFail(c) => RelayStepKeepsSides(h, e);
    case Enqueue(c) => RelayStepKeepsSides(h, e);
    case Register(side) => RegisterKeepsSides(h, side);
    case DrainSend(ok) => LockedStepKeepsSides(h, e);
    case EndRegister => LockedStepKeepsSides(h, e);
    case SwapBackend => LockedStepKeepsSides(h, e);
    case CloseHub => CloseOnlyFlags(h);
    case EndContext =>
  }

  lemma RegisterKeepsSides(h: Hub, side: Side)
    requires h.WellFormed() && Enabled(h, Register(side))
    ensures |Apply(h, Register(side)).conns| == |h.conns| + 1
    ensures forall c :: 0 <= c < |h.conns| ==> Apply(h, Register(side)).conns[c].side == h.conns[c].side
  {
  }

  lemma StepKeepsPeers(h: Hub, e: Event, side: Side)
    requires h.WellFormed() && Enabled(h, e) && !e.Register?
    ensures Apply(h, e).At(side).peer in {h.At(side).peer, None}
  {
    match e
    case CheckContext(c) =>
    case Receive(c) =>
    case ReceiveError(c) =>
    case ClearSlot(c) =>
    case ReadPeer(c) =>
    case SendOk(c) => assert h.RelayOk(c);
    case SendFail(c) => assert h.RelayOk(c);
    case Enqueue(c) =>
    case Register(_) =>
    case DrainSend(ok) =>
    case EndRegister =>
    case SwapBackend =>
    case CloseHub =>
    case EndContext =>
  }

  lemma StepKeepsSlotsCurrent(h: Hub, e: Event)
    requires Inv(h) && SlotsCurrent(h) && Enabled(h, e)
    ensures Inv(Apply(h, e)) && SlotsCurrent(Apply(h, e))
  {
    StepKeepsInv(h, e);
    if e.Register? {
      RegisterKeepsSlotsCurrent(h, e.side);
    } else {
      StepKeepsSides(h, e);
      StepKeepsPeers(h, e, Shell);
      StepKeepsPeers(h, e, Backend);
      SlotsStayCurrent(h, Apply(h, e));
    }
  }

  lemma SlotsStayCurrent(h: Hub, h': Hub)
    requires h.WellFormed() && SlotsCurrent(h) && h'.WellFormed() && |h'.conns| == |h.conns|
    requires forall c :: 0 <= c < |h.conns| ==> h'.conns[c].side == h.conns[c].side
    requires h'.shell.peer in {h.shell.peer, None} && h'.backend.peer in {h.backend.peer, None}
    ensures SlotsCurrent(h')
  {
  }

  lemma RegisterKeepsSlotsCurrent(h: Hub, side: Side)
    requires h.WellFormed() && SlotsCurrent(h) && Enabled(h, Register(side)) && Apply(h, Register(side)).WellFormed()
    ensures SlotsCurrent(Apply(h, Register(side)))
  {
    RegisterKeepsSides(h, side);
    var h' := Apply(h, Register(side));
    assert h'.At(side).peer == Some(|h.conns|) && h'.At(Other(side)).peer == h.At(Other(side)).peer;
    assert h'.conns[|h.conns|].side == side;
  }

  // In every run at all, the slots stay current.
  lemma {:induction false} RunKeepsSlotsCurrent(h: Hub, run: seq<Event>, h': Hub)
    requires Inv(h) && SlotsCurrent(h) && Runs(h, run, h')
    ensures h'.WellFormed() && SlotsCurrent(h')
    decreases |run|
  {
    if run != [] {
      StepKeepsSlotsCurrent(h, run[0]);
      RunKeepsSlotsCurrent(Apply(h, run[0]), run[1..], h');
    }
  }

  // Under every interleaving, a relay that lost its connection clears a slot only if
  // its connection is still the latest of its side.
  lemma {:induction false} StaleRelayClearsNothing(run: seq<Event>, h: Hub, c: ConnId)
    requires Inv(START) && Runs(START, run, h) && Enabled(h, ClearSlot(c)) && !Latest(h, c)
    ensures h.WellFormed()
    ensures Apply(h, ClearSlot(c)).shell == h.shell && Apply(h, ClearSlot(c)).backend == h.backend
  {
    RunKeepsSlotsCurrent(START, run, h);
  }

  // ----- Order of delivery -----

  // Messages of one connection appear in the order read.
  ghost predicate InOrder(s: seq<Msg>) {
    forall i, j :: 0 <= i < j < |s| && s[i].from == s[j].from ==> s[i].n < s[j].n
  }

  // How many of connection c's messages have left its relay's hand.
  ghost function LeftHand(h: Hub, c: ConnId): int
    requires c < |h.conns|
  {
    var relay := h.conns[c].relay;
    h.conns[c].read - if relay.Holding? || relay.Sending? || relay.Queueing? then 1 else 0
  }

  // x is a message to this side that has left its relay's hand.
  ghost predicate Sent(h: Hub, side: Side, x: Msg) {
    x.from < |h.conns| && h.Dest(x.from) == side && x.n < LeftHand(h, x.from)
  }

  ghost predicate HasQueued(h: Hub, side: Side, c: ConnId) {
    exists i :: 0 <= i < |h.At(side).queue| && h.At(side).queue[i].from == c
  }

  // What was written to a side, and then what is queued for it, is in order.
  ghost predicate LineInOrder(h: Hub, side: Side) {
    && InOrder(h.At(side).out + h.At(side).queue)
    && (forall x :: x in h.At(side).out ==> Sent(h, side, x))
    && (forall x :: x in h.At(side).queue ==> Sent(h, side, x))
  }

  ghost predicate LinesInOrder(h: Hub) {
    LineInOrder(h, Shell) && LineInOrder(h, Backend)
  }

  // The order alone.
  ghost predicate InLine(h: Hub) {
    InOrder(h.shell.out + h.shell.queue) && InOrder(h.backend.out + h.backend.queue)
  }

  // A relay sends directly although a message of its own is still queued.
  ghost predicate Overtakes(h: Hub, e: Event)
    requires h.WellFormed() && Enabled(h, e)
  {
    e.SendOk? && HasQueued(h, h.Dest(e.c), e.c)
  }

  // What connection p received is part of what its side received, in order.
  ghost predicate WiresInOrder(h: Hub) {
    forall p {:trigger h.conns[p].written} :: 0 <= p < |h.conns| ==>
      InOrder(h.conns[p].written) && forall x :: x in h.conns[p].written ==> x in h.At(h.conns[p].side).out
  }

  // ----- Every step but an overtaking one keeps the order -----

  // Nothing is written or queued, and no message returns to a hand.
  ghost predicate LineKept(h: Hub, h': Hub) {
    && |h.conns| <= |h'.conns|
    && (forall c {:trigger h'.conns[c]} :: 0 <= c < |h.conns| ==>
         && h'.conns[c].side == h.conns[c].side && LeftHand(h', c) >= LeftHand(h, c)
         && h'.conns[c].written == h.conns[c].written && (h.conns[c].failed ==> h'.conns[c].failed))
    && (forall c {:trigger h'.conns[c]} :: |h.conns| <= c < |h'.conns| ==> h'.conns[c].written == [])
    && h'.shell.queue == h.shell.queue && h'.shell.out == h.shell.out
    && h'.backend.queue == h.backend.queue && h'.backend.out == h.backend.out
  }

  lemma LineKeptKeepsLines(h: Hub, h': Hub)
    requires LineKept(h, h') && LinesInOrder(h)
    ensures LinesInOrder(h')
  {
    forall side, x | Sent(h, side, x)
      ensures Sent(h', side, x)
    {
      assert h'.conns[x.from].side == h.conns[x.from].side;
    }
  }

  lemma LineKeptKeepsWires(h: Hub, h': Hub)
    requires LineKept(h, h') && WiresInOrder(h)
    ensures WiresInOrder(h')
  {
    forall p | 0 <= p < |h'.conns|
      ensures InOrder(h'.conns[p].written) && forall x :: x in h'.conns[p].written ==> x in h'.At(h'.conns[p].side).out
    {
    }
  }

  // The steps of one relay that touch nothing else.
  lemma RelayStepKeepsLine(h: Hub, e: Event)
    requires h.WellFormed() && Enabled(h, e)
    requires e.CheckContext? || e.Receive? || e.ReceiveError? || e.ReadPeer?
    ensures LineKept(h, Apply(h, e))
  {
    var h' := Apply(h, e);
    forall c | 0 <= c < |h.conns|
      ensures h'.conns[c].side == h.conns[c].side && h'.conns[c].written == h.conns[c].written
      ensures LeftHand(h', c) >= LeftHand(h, c) && h'.conns[c].failed == h.conns[c].failed
    {
    }
  }

  lemma ClearSlotKeepsLine(h: Hub, c: ConnId)
    requires h.WellFormed() && Enabled(h, ClearSlot(c))
    ensures LineKept(h, Apply(h, ClearSlot(c)))
  {
    var h' := Apply(h, ClearSlot(c));
    forall b | 0 <= b < |h.conns|
      ensures h'.conns[b].side == h.conns[b].side && LeftHand(h', b) == LeftHand(h, b)
    {
    }
  }

  lemma SendFailKeepsLine(h: Hub, c: ConnId)
    requires h.WellFormed() && Enabled(h, SendFail(c))
    ensures LineKept(h, Apply(h, SendFail(c)))
  {
    assert h.RelayOk(c);
    var h' := Apply(h, SendFail(c));
    forall b | 0 <= b < |h.conns|
      ensures h'.conns[b].side == h.conns[b].side && h'.conns[b].written == h.conns[b].written
      ensures LeftHand(h', b) == LeftHand(h, b) && (h.conns[b].failed ==> h'.conns[b].failed)
    {
    }
  }

  lemma Inserted(a: seq<Msg>, m: Msg, b: seq<Msg>)
    requires InOrder(a + b)
    requires forall x :: x in a && x.from == m.from ==> x.n < m.n
    requires forall x :: x in b ==> x.from != m.from
    ensures InOrder(a + [m] + b)
  {
    var s, t := a + [m] + b, a + b;
    forall i, j | 0 <= i < j < |s| && s[i].from == s[j].from
      ensures s[i].n < s[j].n
    {
      var i', j' := if i < |a| then i else i - 1, if j < |a| then j else j - 1;
      if i != |a| && j != |a| {
        assert t[i'] == s[i] && t[j'] == s[j];
      }
    }
  }

  lemma SendOkKeepsLines(h: Hub, c: ConnId)
    requires h.WellFormed() && LinesInOrder(h) && Enabled(h, SendOk(c)) && !HasQueued(h, h.Dest(c), c)
    ensures LinesInOrder(Apply(h, SendOk(c)))
  {
    assert h.RelayOk(c);
    var d, m := h.Dest(c), h.conns[c].relay.m;
    var q := h.At(d).queue;
    forall x | x in q
      ensures x.from != c
    {
      var i :| 0 <= i < |q| && q[i] == x;
    }
    Inserted(h.At(d).out, m, q);
    SentMonotone(h, Apply(h, SendOk(c)));
  }

  // The message sent goes before one that left the relay's hand before it.
  lemma SendOkOvertakes(h: Hub, c: ConnId)
    requires h.WellFormed() && LinesInOrder(h) && Enabled(h, SendOk(c)) && HasQueued(h, h.Dest(c), c)
    ensures !InLine(Apply(h, SendOk(c)))
  {
    assert h.RelayOk(c);
    var h', d, m := Apply(h, SendOk(c)), h.Dest(c), h.conns[c].relay.m;
    var out, q := h.At(d).out, h.At(d).queue;
    var i :| 0 <= i < |q| && q[i].from == c;
    assert q[i] in q && Sent(h, d, q[i]);
    var line := (out + [m]) + q;
    assert h'.At(d).out + h'.At(d).queue == line;
    assert line[|out|] == m && line[|out| + 1 + i] == q[i] && q[i].n < m.n;
    assert !InOrder(line);
  }

  lemma SentMonotone(h: Hub, h': Hub)
    requires |h.conns| <= |h'.conns|
    requires forall c :: 0 <= c < |h.conns| ==> h'.conns[c].side == h.conns[c].side && LeftHand(h', c) >= LeftHand(h, c)
    ensures forall side, x :: Sent(h, side, x) ==> Sent(h', side, x)
  {
  }

  lemma EnqueueKeepsLines(h: Hub, c: ConnId)
    requires h.WellFormed() && LinesInOrder(h) && Enabled(h, Enqueue(c))
    ensures LinesInOrder(Apply(h, Enqueue(c)))
  {
    assert h.RelayOk(c);
    var h', d, m := Apply(h, Enqueue(c)), h.Dest(c), h.conns[c].relay.m;
    forall b | 0 <= b < |h.conns|
      ensures h'.conns[b].side == h.conns[b].side && LeftHand(h', b) == LeftHand(h, b) + if b == c then 1 else 0
    {
    }
    QueuedLast(h, h', d, m);
    QueuedLast(h, h', Other(d), m);
  }

  // m, the next of its connection, is queued for side d.
  lemma QueuedLast(h: Hub, h': Hub, d: Side, m: Msg)
    requires LineInOrder(h, d) && |h'.conns| == |h.conns| && m.from < |h.conns|
    requires forall b :: 0 <= b < |h.conns| ==>
               h'.conns[b].side == h.conns[b].side && LeftHand(h', b) == LeftHand(h, b) + if b == m.from then 1 else 0
    requires h'.At(d).out == h.At(d).out && m.n == LeftHand(h, m.from)
    requires h'.At(d).queue == h.At(d).queue + if h.Dest(m.from) == d then [m] else []
    ensures LineInOrder(h', d)
  {
    SentMonotone(h, h');
    var line := h.At(d).out + h.At(d).queue;
    assert line + [] == line && line + [m] + [] == h.At(d).out + (h.At(d).queue + [m]);
    if h.Dest(m.from) == d {
      Inserted(line, m, []);
    } else {
      assert h'.At(d).queue == h.At(d).queue;
    }
  }

  // h' differs from h in cancellations and closings only.
  ghost predicate OnlyFlags(h: Hub, h': Hub) {
    && |h'.conns| == |h.conns|
    && (forall c {:trigger h'.conns[c]} :: 0 <= c < |h.conns| ==>
         h'.conns[c] == h.conns[c].(cancelled := h'.conns[c].cancelled, closed := h'.conns[c].closed))
    && h'.shell == h.shell && h'.backend == h.backend && h'.locked == h.locked && h'.lost == h.lost
  }

  lemma FlagOnly(h: Hub, c: Option<ConnId>)
    ensures OnlyFlags(h, Closed(h, c)) && OnlyFlags(h, Cancelled(h, c))
  {
  }

  lemma CloseOnlyFlags(h: Hub)
    requires h.WellFormed() && Enabled(h, CloseHub)
    ensures OnlyFlags(h, Apply(h, CloseHub))
  {
    FlagOnly(h, h.shell.cancel);
    var h1 := Cancelled(h, h.shell.cancel);
    FlagOnly(h1, h.backend.cancel);
    var h2 := Cancelled(h1, h.backend.cancel);
    FlagOnly(h2, h.shell.peer);
    FlagOnly(Closed(h2, h.shell.peer), h.backend.peer);
  }

  lemma RetiredOnlyFlags(h: Hub, side: Side)
    ensures OnlyFlags(h, Retired(h, side))
  {
    FlagOnly(h, h.At(side).cancel);
    FlagOnly(Cancelled(h, h.At(side).cancel), h.At(side).peer);
  }

  lemma RegisterKeepsLine(h: Hub, side: Side)
    requires h.WellFormed() && Enabled(h, Register(side))
    ensures LineKept(h, Apply(h, Register(side)))
  {
    RetiredOnlyFlags(h, side);
    var h' := Apply(h, Register(side));
    forall s: Side
      ensures h'.At(s).queue == h.At(s).queue && h'.At(s).out == h.At(s).out
    {
    }
    forall c | 0 <= c < |h.conns|
      ensures h'.conns[c] == Retired(h, side).conns[c] && LeftHand(h', c) == LeftHand(h, c)
    {
    }
  }

  lemma DrainSendKeepsLine(h: Hub, ok: bool, side: Side)
    requires h.WellFormed() && LineInOrder(h, side) && Enabled(h, DrainSend(ok))
    ensures LineInOrder(Apply(h, DrainSend(ok)), side)
  {
    var h' := Apply(h, DrainSend(ok));
    SentMonotone(h, h');
    if side == h.locked.value {
      var out, q := h.At(side).out, h.At(side).queue;
      assert q == [q[0]] + q[1..];
      if ok {
        assert out + q == out + [q[0]] + q[1..];
      } else {
        DropOne(out, q[0], q[1..]);
      }
    }
  }

  lemma DropOne(a: seq<Msg>, m: Msg, b: seq<Msg>)
    requires InOrder(a + ([m] + b))
    ensures InOrder(a + b)
  {
    var s, t := a + ([m] + b), a + b;
    forall i, j | 0 <= i < j < |t| && t[i].from == t[j].from
      ensures t[i].n < t[j].n
    {
      var i', j' := if i < |a| then i else i + 1, if j < |a| then j else j + 1;
      assert s[i'] == t[i] && s[j'] == t[j];
    }
  }

  // The end of a registration.
  lemma EndRegisterKeepsLine(h: Hub)
    requires h.WellFormed() && Enabled(h, EndRegister)
    ensures LineKept(h, Apply(h, EndRegister))
  {
    var h' := Apply(h, EndRegister);
    forall c | 0 <= c < |h.conns|
      ensures LeftHand(h', c) == LeftHand(h, c) && h'.conns[c].written == h.conns[c].written
    {
    }
  }

  lemma SwapOnlyFlags(h: Hub)
    requires h.WellFormed() && Enabled(h, SwapBackend)
    ensures OnlyFlags(h, Apply(h, SwapBackend).(backend := h.backend))
  {
    FlagOnly(h, h.backend.cancel);
    FlagOnly(Cancelled(h, h.backend.cancel), h.backend.peer);
  }

  lemma SwapKeepsLine(h: Hub)
    requires h.WellFormed() && Enabled(h, SwapBackend)
    ensures LineKept(h, Apply(h, SwapBackend))
  {
    SwapOnlyFlags(h);
    var h' := Apply(h, SwapBackend);
    forall c | 0 <= c < |h.conns|
      ensures LeftHand(h', c) == LeftHand(h, c) && h'.conns[c].written == h.conns[c].written
    {
    }
  }

  lemma CloseKeepsLine(h: Hub)
    requires h.WellFormed() && Enabled(h, CloseHub)
    ensures LineKept(h, Apply(h, CloseHub))
  {
    CloseOnlyFlags(h);
  }

  lemma EnqueueKeepsWires(h: Hub, c: ConnId)
    requires h.WellFormed() && WiresInOrder(h) && Enabled(h, Enqueue(c))
    ensures WiresInOrder(Apply(h, Enqueue(c)))
  {
    var h' := Apply(h, Enqueue(c));
    forall p | 0 <= p < |h'.conns|
      ensures h'.conns[p].written == h.conns[p].written && h'.At(h'.conns[p].side).out == h.At(h.conns[p].side).out
    {
    }
  }

  // A message written to p comes after everything of its connection written so far.
  lemma WrittenKeepsWires(h: Hub, side: Side, p: ConnId, m: Msg, h': Hub)
    requires WiresInOrder(h) && p < |h.conns| && h.conns[p].side == side && |h'.conns| == |h.conns|
    requires forall x :: x in h.At(side).out && x.from == m.from ==> x.n < m.n
    requires forall q {:trigger h'.conns[q]} :: 0 <= q < |h.conns| ==>
               && h'.conns[q].side == h.conns[q].side
               && h'.conns[q].written == if q == p then h.conns[p].written + [m] else h.conns[q].written
    requires h'.At(side).out == h.At(side).out + [m] && h'.At(Other(side)).out == h.At(Other(side)).out
    ensures WiresInOrder(h')
  {
    forall q | 0 <= q < |h'.conns|
      ensures InOrder(h'.conns[q].written) && forall x :: x in h'.conns[q].written ==> x in h'.At(h'.conns[q].side).out
    {
      var w := h.conns[q].written;
      assert InOrder(w) && forall x :: x in w ==> x in h.At(h.conns[q].side).out;
      if q == p {
        assert w + [] == w;
        Inserted(w, m, []);
        assert w + [m] + [] == w + [m];
      }
    }
  }

  lemma SendOkKeepsWires(h: Hub, c: ConnId)
    requires h.WellFormed() && LinesInOrder(h) && WiresInOrder(h) && Enabled(h, SendOk(c))
    ensures WiresInOrder(Apply(h, SendOk(c)))
  {
    assert h.RelayOk(c);
    WrittenKeepsWires(h, h.Dest(c), h.conns[c].relay.to, h.conns[c].relay.m, Apply(h, SendOk(c)));
  }

  lemma DrainSendKeepsWires(h: Hub, ok: bool)
    requires h.WellFormed() && LinesInOrder(h) && WiresInOrder(h) && Enabled(h, DrainSend(ok))
    ensures WiresInOrder(Apply(h, DrainSend(ok)))
  {
    var side := h.locked.value;
    var out, q := h.At(side).out, h.At(side).queue;
    if ok {
      forall x | x in out && x.from == q[0].from
        ensures x.n < q[0].n
      {
        var i :| 0 <= i < |out| && out[i] == x;
        assert (out + q)[i] == x && (out + q)[|out|] == q[0];
      }
      WrittenKeepsWires(h, side, h.At(side).peer.value, q[0], Apply(h, DrainSend(ok)));
    } else {
      var h' := Apply(h, DrainSend(ok));
      forall p | 0 <= p < |h'.conns|
        ensures h'.conns[p].written == h.conns[p].written && h'.At(h'.conns[p].side).out == h.At(h.conns[p].side).out
      {
      }
    }
  }

  lemma LineKeptStep(h: Hub, e: Event)
    requires h.WellFormed() && Enabled(h, e) && !e.SendOk? && !e.Enqueue? && !e.DrainSend?
    ensures LineKept(h, Apply(h, e))
  {
    match e
    case CheckContext(_) => RelayStepKeepsLine(h, e);
    case Receive(_) => RelayStepKeepsLine(h, e);
    case ReceiveError(_) => RelayStepKeepsLine(h, e);
    case ClearSlot(d) => ClearSlotKeepsLine(h, d);
    case ReadPeer(_) => RelayStepKeepsLine(h, e);
    case SendFail(d) => SendFailKeepsLine(h, d);
    case Register(added) => RegisterKeepsLine(h, added);
    case EndRegister => EndRegisterKeepsLine(h);
    case SwapBackend => SwapKeepsLine(h);
    case CloseHub => CloseKeepsLine(h);
    case EndContext =>
  }

  // A step keeps what was written and queued for both sides in order exactly if it
  // is not a direct send by a relay with a message of its own in the queue.
  lemma StepKeepsLineIff(h: Hub, e: Event)
    requires h.WellFormed() && LinesInOrder(h) && Enabled(h, e)
    ensures LinesInOrder(Apply(h, e)) <==> !Overtakes(h, e)
    ensures InLine(Apply(h, e)) <==> !Overtakes(h, e)
  {
    if Overtakes(h, e) {
      SendOkOvertakes(h, e.c);
    } else if e.SendOk? {
      SendOkKeepsLines(h, e.c);
    } else if e.Enqueue? {
      EnqueueKeepsLines(h, e.c);
    } else if e.DrainSend? {
      DrainSendKeepsLine(h, e.ok, Shell);
      DrainSendKeepsLine(h, e.ok, Backend);
    } else {
      LineKeptStep(h, e);
      LineKeptKeepsLines(h, Apply(h, e));
    }
  }

  lemma StepKeepsWires(h: Hub, e: Event)
    requires h.WellFormed() && LinesInOrder(h) && WiresInOrder(h) && Enabled(h, e)
    ensures WiresInOrder(Apply(h, e))
  {
    if e.SendOk? {
      SendOkKeepsWires(h, e.c);
    } else if e.Enqueue? {
      EnqueueKeepsWires(h, e.c);
    } else if e.DrainSend? {
      DrainSendKeepsWires(h, e.ok);
    } else {
      LineKeptStep(h, e);
      LineKeptKeepsWires(h, Apply(h, e));
    }
  }

  lemma LinePrefixInOrder(a: seq<Msg>, b: seq<Msg>)
    requires InOrder(a + b)
    ensures InOrder(a)
  {
    forall i, j | 0 <= i < j < |a| && a[i].from == a[j].from
      ensures a[i].n < a[j].n
    {
      assert (a + b)[i] == a[i] && (a + b)[j] == a[j];
    }
  }

  // ----- Runs in order -----

  // In every state of the run, what was written and queued for both sides is in order.
  ghost predicate AlwaysInLine(h: Hub, run: seq<Event>)
    requires Inv(h)
    decreases |run|
  {
    && InLine(h)
    && (run != [] && Enabled(h, run[0]) ==>
          (StepKeepsInv(h, run[0]); AlwaysInLine(Apply(h, run[0]), run[1..])))
  }

  ghost predicate NeverOvertakes(h: Hub, run: seq<Event>)
    requires Inv(h)
    decreases |run|
  {
    run != [] && Enabled(h, run[0]) ==>
      !Overtakes(h, run[0]) && (StepKeepsInv(h, run[0]); NeverOvertakes(Apply(h, run[0]), run[1..]))
  }

  lemma {:induction false} RunInOrderIff(h: Hub, run: seq<Event>, h': Hub)
    requires Inv(h) && LinesInOrder(h) && WiresInOrder(h) && Runs(h, run, h')
    ensures AlwaysInLine(h, run) <==> NeverOvertakes(h, run)
    ensures NeverOvertakes(h, run) ==> LinesInOrder(h') && WiresInOrder(h')
    decreases |run|
  {
    if run != [] {
      var next := Apply(h, run[0]);
      StepKeepsInv(h, run[0]);
      StepKeepsLineIff(h, run[0]);
      if Overtakes(h, run[0]) {
        assert !InLine(next);
      } else {
        StepKeepsWires(h, run[0]);
        RunInOrderIff(next, run[1..], h');
      }
    }
  }

  // Under every interleaving, the messages stay in order exactly if no relay ever
  // sends directly while a message of its own is queued; then they reach the other
  // side in the order read, over all connections of that side and on each of them.
  lemma {:induction false} InOrderIffNeverOvertakes(run: seq<Event>, h: Hub)
    requires Inv(START) && Runs(START, run, h)
    ensures AlwaysInLine(START, run) <==> NeverOvertakes(START, run)
    ensures NeverOvertakes(START, run) ==> InOrder(h.shell.out) && InOrder(h.backend.out)
    ensures NeverOvertakes(START, run) ==> forall p :: 0 <= p < |h.conns| ==> InOrder(h.conns[p].written)
  {
    RunInOrderIff(START, run, h);
    if NeverOvertakes(START, run) {
      LinePrefixInOrder(h.shell.out, h.shell.queue);
      LinePrefixInOrder(h.backend.out, h.backend.queue);
    }
  }
}
