// No interleaving duplicates a message or makes it vanish (hotswap/hub.go).
module HubConservation {
  import opened Wrappers
  import opened HubProtocol

  // ----- Conservation -----

  datatype Place = Hand(c: ConnId) | OnWire(p: ConnId, i: nat) | Queued(side: Side, i: nat) | Lost(i: nat)

  // The message at a place, if the place exists and is taken.
  ghost predicate IsAt(h: Hub, m: Msg, place: Place) {
    match place
    case Hand(c) => c < |h.conns| && h.conns[c].relay.Holds(m)
    case OnWire(p, i) => p < |h.conns| && i < |h.conns[p].written| && h.conns[p].written[i] == m
    case Queued(side, i) => i < |h.At(side).queue| && h.At(side).queue[i] == m
    case Lost(i) => i < |h.lost| && h.lost[i] == m
  }

  ghost predicate WasRead(h: Hub, m: Msg) {
    m.from < |h.conns| && m.n < h.conns[m.from].read
  }

  ghost predicate SomewhereAt(h: Hub, m: Msg) {
    exists place :: IsAt(h, m, place)
  }

  // A message is somewhere exactly if some relay has read it, and never in two places.
  ghost predicate Conserved(h: Hub) {
    && (forall m {:trigger WasRead(h, m)} {:trigger SomewhereAt(h, m)} :: WasRead(h, m) <==> SomewhereAt(h, m))
    && forall m, p, q :: IsAt(h, m, p) && IsAt(h, m, q) ==> p == q
  }

  ghost predicate Inv(h: Hub) {
    h.WellFormed() && Conserved(h)
  }

  // The same messages were read.
  ghost predicate SameReads(h: Hub, h': Hub) {
    forall m :: WasRead(h, m) <==> WasRead(h', m)
  }

  // Every place holds what it held.
  ghost predicate SamePlaces(h: Hub, h': Hub) {
    forall m, p :: IsAt(h, m, p) <==> IsAt(h', m, p)
  }

  // Every place holds what it held, except that m went from `p` to `q`.
  ghost predicate Moved(h: Hub, h': Hub, m: Msg, p: Place, q: Place) {
    && p != q && IsAt(h, m, p) && (forall x :: !IsAt(h', x, p)) && (forall x :: !IsAt(h, x, q))
    && (forall x :: IsAt(h', x, q) <==> x == m)
    && forall x, r :: r != p && r != q ==> (IsAt(h', x, r) <==> IsAt(h, x, r))
  }

  lemma QuietKeeps(h: Hub, h': Hub)
    requires Conserved(h) && SameReads(h, h') && SamePlaces(h, h')
    ensures Conserved(h')
  {
    forall m
      ensures WasRead(h', m) <==> SomewhereAt(h', m)
    {
      assert WasRead(h, m) <==> SomewhereAt(h, m);
      if SomewhereAt(h, m) {
        var p :| IsAt(h, m, p);
        assert IsAt(h', m, p);
      }
      if SomewhereAt(h', m) {
        var p :| IsAt(h', m, p);
        assert IsAt(h, m, p);
      }
    }
  }

  lemma MovedKeeps(h: Hub, h': Hub, m: Msg, p: Place, q: Place)
    requires Conserved(h) && SameReads(h, h') && Moved(h, h', m, p, q)
    ensures Conserved(h')
  {
    forall x
      ensures WasRead(h', x) <==> SomewhereAt(h', x)
    {
      assert WasRead(h, x) <==> SomewhereAt(h, x);
      if SomewhereAt(h, x) {
        var r :| IsAt(h, x, r);
        if x == m {
          assert IsAt(h', m, q);
        } else {
          assert r != p by { assert IsAt(h, m, p); }
          assert IsAt(h', x, r);
        }
      }
      if SomewhereAt(h', x) {
        var r :| IsAt(h', x, r);
        assert IsAt(h, x, if r == q then p else r);
      }
    }
  }

  // ----- Every step keeps the invariant -----

  lemma RelaysStayOk(h: Hub, h': Hub, c: ConnId)
    requires h.WellFormed() && |h'.conns| == |h.conns|
    requires forall d :: 0 <= d < |h.conns| ==> h'.conns[d].side == h.conns[d].side
    requires forall d :: 0 <= d < |h.conns| && d != c ==>
               h'.conns[d].relay == h.conns[d].relay && h'.conns[d].read == h.conns[d].read
    requires c < |h.conns| ==> h'.RelayOk(c)
    ensures forall d :: 0 <= d < |h.conns| ==> h'.RelayOk(d)
  {
    forall d | 0 <= d < |h.conns|
      ensures h'.RelayOk(d)
    {
      assert h.RelayOk(d);
    }
  }

  lemma CheckContextKeeps(h: Hub, c: ConnId)
    requires Inv(h) && Enabled(h, CheckContext(c))
    ensures Inv(Apply(h, CheckContext(c)))
  {
    var h' := Apply(h, CheckContext(c));
    RelaysStayOk(h, h', c);
    QuietKeeps(h, h');
  }

  lemma ReceiveKeeps(h: Hub, c: ConnId)
    requires Inv(h) && Enabled(h, Receive(c))
    ensures Inv(Apply(h, Receive(c)))
  {
    var h' := Apply(h, Receive(c));
    RelaysStayOk(h, h', c);
    var m := Msg(c, h.conns[c].read);
    forall x
      ensures WasRead(h', x) <==> WasRead(h, x) || x == m
      ensures WasRead(h', x) <==> SomewhereAt(h', x)
    {
      assert WasRead(h, x) <==> SomewhereAt(h, x);
      if x == m {
        assert IsAt(h', x, Hand(c));
      } else {
        if p :| IsAt(h, x, p) { assert IsAt(h', x, p); }
        if p :| IsAt(h', x, p) { assert IsAt(h, x, p); }
      }
    }
    assert forall p :: IsAt(h, m, p) ==> SomewhereAt(h, m);
    assert forall x, p :: IsAt(h', x, p) <==> IsAt(h, x, p) || (x == m && p == Hand(c));
  }

  lemma ReceiveErrorKeeps(h: Hub, c: ConnId)
    requires Inv(h) && Enabled(h, ReceiveError(c))
    ensures Inv(Apply(h, ReceiveError(c)))
  {
    var h' := Apply(h, ReceiveError(c));
    RelaysStayOk(h, h', c);
    QuietKeeps(h, h');
  }

  lemma ClearSlotKeeps(h: Hub, c: ConnId)
    requires Inv(h) && Enabled(h, ClearSlot(c))
    ensures Inv(Apply(h, ClearSlot(c)))
  {
    ClearSlotStaysOk(h, c);
    ClearSlotIsQuiet(h, c);
    QuietKeeps(h, Apply(h, ClearSlot(c)));
  }

  lemma ClearSlotStaysOk(h: Hub, c: ConnId)
    requires h.WellFormed() && Enabled(h, ClearSlot(c))
    ensures Apply(h, ClearSlot(c)).WellFormed()
  {
    RelaysStayOk(h, Apply(h, ClearSlot(c)), c);
  }

  lemma ClearSlotIsQuiet(h: Hub, c: ConnId)
    requires h.WellFormed() && Enabled(h, ClearSlot(c))
    ensures SameReads(h, Apply(h, ClearSlot(c))) && SamePlaces(h, Apply(h, ClearSlot(c)))
  {
    var h' := Apply(h, ClearSlot(c));
    assert h'.conns == h.Moved(c, Stopped).conns;
    assert forall side: Side :: h'.At(side).queue == h.At(side).queue;
  }

  lemma ReadPeerKeeps(h: Hub, c: ConnId)
    requires Inv(h) && Enabled(h, ReadPeer(c))
    ensures Inv(Apply(h, ReadPeer(c)))
  {
    var h' := Apply(h, ReadPeer(c));
    assert h.RelayOk(c);
    RelaysStayOk(h, h', c);
    QuietKeeps(h, h');
  }

  lemma SendOkKeeps(h: Hub, c: ConnId)
    requires Inv(h) && Enabled(h, SendOk(c))
    ensures Inv(Apply(h, SendOk(c)))
  {
    SendOkStaysOk(h, c);
    SendOkMoves(h, c);
    MovedKeeps(h, Apply(h, SendOk(c)), h.conns[c].relay.m, Hand(c), WireEnd(h, h.conns[c].relay.to));
  }

  lemma SendOkStaysOk(h: Hub, c: ConnId)
    requires h.WellFormed() && Enabled(h, SendOk(c))
    ensures Apply(h, SendOk(c)).WellFormed()
  {
    assert h.RelayOk(c);
    RelaysStayOk(h, Apply(h, SendOk(c)), c);
  }

  lemma SendFailStaysOk(h: Hub, c: ConnId)
    requires h.WellFormed() && Enabled(h, SendFail(c))
    ensures Apply(h, SendFail(c)).WellFormed()
  {
    assert h.RelayOk(c);
    RelaysStayOk(h, Apply(h, SendFail(c)), c);
  }

  lemma EnqueueStaysOk(h: Hub, c: ConnId)
    requires h.WellFormed() && Enabled(h, Enqueue(c))
    ensures Apply(h, Enqueue(c)).WellFormed()
  {
    RelaysStayOk(h, Apply(h, Enqueue(c)), c);
  }

  // The place after the last message written to p.
  ghost function WireEnd(h: Hub, p: ConnId): Place
    requires p < |h.conns|
  {
    OnWire(p, |h.conns[p].written|)
  }

  lemma SendOkMoves(h: Hub, c: ConnId)
    requires h.WellFormed() && Enabled(h, SendOk(c))
    ensures h.conns[c].relay.to < |h.conns|
    ensures SameReads(h, Apply(h, SendOk(c)))
    ensures Moved(h, Apply(h, SendOk(c)), h.conns[c].relay.m, Hand(c), WireEnd(h, h.conns[c].relay.to))
  {
    assert h.RelayOk(c);
    var h' := Apply(h, SendOk(c));
    var q := WireEnd(h, h.conns[c].relay.to);
    forall x, r | r != Hand(c) && r != q
      ensures IsAt(h', x, r) <==> IsAt(h, x, r)
    {
      match r
      case Hand(_) =>
      case OnWire(_, _) =>
      case Queued(_, _) =>
      case Lost(_) =>
    }
  }

  lemma SendFailKeeps(h: Hub, c: ConnId)
    requires Inv(h) && Enabled(h, SendFail(c))
    ensures Inv(Apply(h, SendFail(c)))
  {
    SendFailStaysOk(h, c);
    SendFailIsQuiet(h, c);
    QuietKeeps(h, Apply(h, SendFail(c)));
  }

  lemma SendFailIsQuiet(h: Hub, c: ConnId)
    requires h.WellFormed() && Enabled(h, SendFail(c))
    ensures SameReads(h, Apply(h, SendFail(c))) && SamePlaces(h, Apply(h, SendFail(c)))
  {
    assert h.RelayOk(c);
  }

  lemma EnqueueKeeps(h: Hub, c: ConnId)
    requires Inv(h) && Enabled(h, Enqueue(c))
    ensures Inv(Apply(h, Enqueue(c)))
  {
    EnqueueStaysOk(h, c);
    EnqueueMoves(h, c);
    MovedKeeps(h, Apply(h, Enqueue(c)), h.conns[c].relay.m, Hand(c), QueueEnd(h, h.Dest(c)));
  }

  // The place after the last message queued for a side.
  ghost function QueueEnd(h: Hub, side: Side): Place {
    Queued(side, |h.At(side).queue|)
  }

  lemma EnqueueMoves(h: Hub, c: ConnId)
    requires h.WellFormed() && Enabled(h, Enqueue(c))
    ensures SameReads(h, Apply(h, Enqueue(c)))
    ensures Moved(h, Apply(h, Enqueue(c)), h.conns[c].relay.m, Hand(c), QueueEnd(h, h.Dest(c)))
  {
    assert h.RelayOk(c);
  }

  // h' differs from h in cancellations and closings only.
  ghost predicate SameTraffic(h: Hub, h': Hub) {
    && |h'.conns| == |h.conns|
    && (forall c {:trigger h'.conns[c]} :: 0 <= c < |h.conns| ==>
         && h'.conns[c].side == h.conns[c].side && h'.conns[c].relay == h.conns[c].relay
         && h'.conns[c].read == h.conns[c].read && h'.conns[c].written == h.conns[c].written)
    && h'.lost == h.lost && (forall side :: h'.At(side).queue == h.At(side).queue)
  }

  lemma SameTrafficKeeps(h: Hub, h': Hub)
    requires Inv(h) && SameTraffic(h, h')
    ensures Conserved(h') && forall c :: 0 <= c < |h.conns| ==> h'.RelayOk(c)
  {
    RelaysStayOk(h, h', |h.conns|);
    QuietKeeps(h, h');
  }

  lemma ClosedSameTraffic(h: Hub, a: Option<ConnId>)
    ensures SameTraffic(h, Closed(h, a)) && SameTraffic(h, Cancelled(h, a))
    ensures Closed(h, a).shell == Cancelled(h, a).shell == h.shell
    ensures Closed(h, a).backend == Cancelled(h, a).backend == h.backend
    ensures Closed(h, a).locked == Cancelled(h, a).locked == h.locked
  {
  }

  // The hub at a registration, before the new connection is added.
  ghost function Retired(h: Hub, side: Side): Hub {
    Closed(Cancelled(h, h.At(side).cancel), h.At(side).peer)
  }

  lemma RegisterKeeps(h: Hub, side: Side)
    requires Inv(h) && Enabled(h, Register(side))
    ensures Inv(Apply(h, Register(side)))
  {
    ClosedSameTraffic(h, h.At(side).cancel);
    ClosedSameTraffic(Cancelled(h, h.At(side).cancel), h.At(side).peer);
    SameTrafficKeeps(h, Retired(h, side));
    InstalledIsQuiet(h, side);
    QuietKeeps(Retired(h, side), Installed(h, side));
    InstalledStaysOk(h, side);
  }

  lemma InstalledIsQuiet(h: Hub, side: Side)
    ensures SameReads(Retired(h, side), Installed(h, side)) && SamePlaces(Retired(h, side), Installed(h, side))
  {
  }

  lemma InstalledStaysOk(h: Hub, side: Side)
    requires h.WellFormed() && SameTraffic(h, Retired(h, side))
    requires forall d :: 0 <= d < |h.conns| ==> Retired(h, side).RelayOk(d)
    ensures Installed(h, side).WellFormed()
  {
    var h' := Installed(h, side);
    forall d | 0 <= d < |h'.conns|
      ensures h'.RelayOk(d)
    {
      if d < |h.conns| { assert Retired(h, side).RelayOk(d); }
    }
  }

  // The queue moves up by one, and its head goes to the wire or is lost.
  ghost predicate Shifted(h: Hub, h': Hub, side: Side, q: Place) {
    && !q.Queued? && SameReads(h, h')
    && (forall x :: !IsAt(h, x, q))
    && forall x, r {:trigger IsAt(h', x, r)} :: IsAt(h', x, r) <==> IsAt(h, x, Before(r, side, q))
  }

  lemma ShiftedKeeps(h: Hub, h': Hub, side: Side, q: Place)
    requires Conserved(h) && Shifted(h, h', side, q)
    ensures Conserved(h')
  {
    forall x
      ensures WasRead(h', x) <==> SomewhereAt(h', x)
    {
      assert WasRead(h, x) <==> SomewhereAt(h, x);
      if SomewhereAt(h, x) {
        var r :| IsAt(h, x, r);
        var r' := if r.Queued? && r.side == side then (if r.i == 0 then q else Queued(side, r.i - 1)) else r;
        assert r != q && Before(r', side, q) == r;
        assert IsAt(h', x, r');
      }
      if SomewhereAt(h', x) {
        var r :| IsAt(h', x, r);
        assert IsAt(h, x, Before(r, side, q));
      }
    }
    forall x, r, t | IsAt(h', x, r) && IsAt(h', x, t)
      ensures r == t
    {
      assert Before(r, side, q) == Before(t, side, q);
    }
  }

  ghost function DrainedTo(h: Hub, ok: bool): Place
    requires h.WellFormed() && h.locked.Some?
  {
    var p := h.At(h.locked.value).peer.value;
    if ok then OnWire(p, |h.conns[p].written|) else Lost(|h.lost|)
  }

  lemma DrainSendShifts(h: Hub, ok: bool, x: Msg, r: Place)
    requires h.WellFormed() && Enabled(h, DrainSend(ok))
    ensures IsAt(Apply(h, DrainSend(ok)), x, r) <==> IsAt(h, x, Before(r, h.locked.value, DrainedTo(h, ok)))
  {
    match r
    case Hand(c) =>
    case OnWire(p, i) =>
    case Queued(side, i) =>
    case Lost(i) =>
  }

  lemma DrainSendKeeps(h: Hub, ok: bool)
    requires Inv(h) && Enabled(h, DrainSend(ok))
    ensures Inv(Apply(h, DrainSend(ok)))
  {
    var h', q := Apply(h, DrainSend(ok)), DrainedTo(h, ok);
    RelaysStayOk(h, h', |h.conns|);
    forall x, r
      ensures IsAt(h', x, r) <==> IsAt(h, x, Before(r, h.locked.value, q))
    {
      DrainSendShifts(h, ok, x, r);
    }
    ShiftedKeeps(h, h', h.locked.value, q);
  }

  // Where the message now at r was before the head of the queue was taken.
  ghost function Before(r: Place, side: Side, q: Place): Place {
    if r == q then Queued(side, 0)
    else if r.Queued? && r.side == side then Queued(side, r.i + 1)
    else r
  }

  lemma EndRegisterKeeps(h: Hub)
    requires Inv(h) && Enabled(h, EndRegister)
    ensures Inv(Apply(h, EndRegister))
  {
    var h' := Apply(h, EndRegister);
    RelaysStayOk(h, h', h.At(h.locked.value).peer.value);
    QuietKeeps(h, h');
  }

  lemma SwapKeeps(h: Hub)
    requires Inv(h) && Enabled(h, SwapBackend)
    ensures Inv(Apply(h, SwapBackend))
  {
    var h' := Apply(h, SwapBackend);
    RelaysStayOk(h, h', |h.conns|);
    QuietKeeps(h, h');
  }

  lemma CloseKeeps(h: Hub)
    requires Inv(h) && Enabled(h, CloseHub)
    ensures Inv(Apply(h, CloseHub))
  {
    ClosedSameTraffic(h, h.shell.cancel);
    var h1 := Cancelled(h, h.shell.cancel);
    ClosedSameTraffic(h1, h.backend.cancel);
    var h2 := Cancelled(h1, h.backend.cancel);
    ClosedSameTraffic(h2, h.shell.peer);
    var h3 := Closed(h2, h.shell.peer);
    ClosedSameTraffic(h3, h.backend.peer);
    SameTrafficKeeps(h, Closed(h3, h.backend.peer));
  }

  lemma EndContextKeeps(h: Hub)
    requires Inv(h)
    ensures Inv(Apply(h, EndContext))
  {
    var h' := Apply(h, EndContext);
    RelaysStayOk(h, h', |h.conns|);
    QuietKeeps(h, h');
  }

  lemma StepKeepsInv(h: Hub, e: Event)
    requires Inv(h) && Enabled(h, e)
    ensures Inv(Apply(h, e))
  {
    match e
    case CheckContext(c) => CheckContextKeeps(h, c);
    case Receive(c) => ReceiveKeeps(h, c);
    case ReceiveError(c) => ReceiveErrorKeeps(h, c);
    case ClearSlot(c) => ClearSlotKeeps(h, c);
    case ReadPeer(c) => ReadPeerKeeps(h, c);
    case SendOk(c) => SendOkKeeps(h, c);
    case SendFail(c) => SendFailKeeps(h, c);
    case Enqueue(c) => EnqueueKeeps(h, c);
    case Register(side) => RegisterKeeps(h, side);
    case DrainSend(ok) => DrainSendKeeps(h, ok);
    case EndRegister => EndRegisterKeeps(h);
    case SwapBackend => SwapKeeps(h);
    case CloseHub => CloseKeeps(h);
    case EndContext => EndContextKeeps(h);
  }

  // ----- Runs -----

  // h' is reached from h by the steps of the run, each of them enabled.
  ghost predicate Runs(h: Hub, run: seq<Event>, h': Hub)
    requires Inv(h)
    decreases |run|
  {
    if run == [] then h' == h
    else Enabled(h, run[0]) && (StepKeepsInv(h, run[0]); Runs(Apply(h, run[0]), run[1..], h'))
  }

  lemma StartInv()
    ensures Inv(START)
  {
    forall m
      ensures WasRead(START, m) <==> SomewhereAt(START, m)
    {
    }
  }

  lemma {:induction false} RunKeepsInv(h: Hub, run: seq<Event>, h': Hub)
    requires Inv(h) && Runs(h, run, h')
    ensures Inv(h')
    decreases |run|
  {
    if run != [] {
      StepKeepsInv(h, run[0]);
      RunKeepsInv(Apply(h, run[0]), run[1..], h');
    }
  }

  // Under every interleaving of relays, reconnects, disconnects and swaps, each
  // message a relay has read is in exactly one place, and nowhere else does one appear.
  lemma {:induction false} EveryMessageInOnePlace(run: seq<Event>, h: Hub, m: Msg)
    requires Inv(START) && Runs(START, run, h)
    ensures WasRead(h, m) ==> exists p :: IsAt(h, m, p) && forall q :: IsAt(h, m, q) ==> q == p
    ensures !WasRead(h, m) ==> forall p :: !IsAt(h, m, p)
  {
    RunKeepsInv(START, run, h);
    assert WasRead(h, m) <==> SomewhereAt(h, m);
  }

  lemma {:induction false} RunsThen(h: Hub, run: seq<Event>, mid: Hub, e: Event)
    requires Inv(h) && Runs(h, run, mid) && Enabled(mid, e)
    ensures Inv(mid) && Runs(h, run + [e], Apply(mid, e)) && Inv(Apply(mid, e))
    decreases |run|
  {
    RunKeepsInv(h, run, mid);
    StepKeepsInv(mid, e);
    if run != [] {
      StepKeepsInv(h, run[0]);
      assert (run + [e])[1..] == run[1..] + [e];
      RunsThen(Apply(h, run[0]), run[1..], mid, e);
    }
  }
}
