// The bounded trace ring and its archive (telemetry/trace_ring.go,
// telemetry/trace_archive.go). The id of an event is the number in "trace-<n>",
// 0 while it has none; a timestamp 0 is the zero time.
module TraceRing {
  import opened Arithmetic
  import opened Selections

  // `payload` stands for the fields that are only carried along.
  datatype TraceEvent = TraceEvent(id: nat, timestamp: nat, traceID: string, component: string, payload: string)

  // What Append stores.
  function Stamped(e: TraceEvent, id: nat, now: nat, traceID: string): TraceEvent {
    e.(id := id,
       timestamp := if e.timestamp == 0 then now else e.timestamp,
       traceID := if e.traceID == "" && traceID != "" then traceID else e.traceID)
  }

  // An event as it was given, with its number, a time, and a trace id if there is one.
  ghost predicate IsStored(r: TraceEvent, e: TraceEvent, id: nat, now: nat, traceID: string) {
    && r.id == id
    && r.timestamp == (if e.timestamp != 0 then e.timestamp else now)
    && r.traceID == (if e.traceID != "" then e.traceID else traceID)
    && r.component == e.component && r.payload == e.payload
  }

  function Min(a: nat, b: nat): nat {
    if a < b then a else b
  }

  // The events of a sequence that satisfy a test, in order.
  ghost function Where(s: seq<TraceEvent>, test: TraceEvent -> bool): seq<TraceEvent> {
    if s == [] then [] else
      Where(s[..|s| - 1], test) + if test(s[|s| - 1]) then [s[|s| - 1]] else []
  }

  lemma {:induction false} WherePicks(s: seq<TraceEvent>, test: TraceEvent -> bool)
    ensures Picks(Where(s, test), s, set i: nat | i < |s| && test(s[i]))
  {
    var places := set i: nat | i < |s| && test(s[i]);
    if s == [] {
      PicksNothing<TraceEvent>([]);
      assert places == {};
    } else {
      var n := |s| - 1;
      var before := set i: nat | i < n && test(s[..n][i]);
      WherePicks(s[..n], test);
      PicksNext(Where(s[..n], test), s[..n], before, s[n]);
      assert s == s[..n] + [s[n]];
      if test(s[n]) {
        assert places == before + {n};
      } else {
        assert places == before;
      }
    }
  }

  datatype RingStats = RingStats(capacity: nat, count: nat, oldest: nat, newest: nat)

  // ----- Modular positions -----

  // Positions wrap around: (h - k + i) % n, computed the way the ring does.
  lemma Wraps(h: int, k: int, i: int, n: int)
    requires n > 0 && 0 <= h && 0 <= k <= n && k <= h && 0 <= i <= k
    ensures ((h % n - k + n) % n + i) % n == (h - k + i) % n
  {
    var p, q := h % n, h / n;
    var x := p - k + n;
    var s, t := x % n, x / n;
    var y := s + i;
    var r, u := y % n, y / n;
    assert h == q * n + p && x == t * n + s && y == u * n + r;
    Collect(q, t, u, n);
    ModIs(r, h - k + i, q + t - 1 + u, n);
  }

  lemma Collect(q: int, t: int, u: int, n: int)
    ensures q * n + t * n - n + u * n == (q + t - 1 + u) * n
  {
  }

  lemma ModStep(h: nat, n: nat)
    requires n > 0
    ensures (h + 1) % n == (h % n + 1) % n
  {
    var r := (h % n + 1) % n;
    assert h % n + 1 == ((h % n + 1) / n) * n + r;
    assert h + 1 == (h / n) * n + h % n + 1;
    assert h + 1 == (h / n + (h % n + 1) / n) * n + r;
    ModIs(r, h + 1, h / n + (h % n + 1) / n, n);
  }

  // Fewer than n consecutive positions do not collide.
  lemma ModApart(a: nat, b: nat, n: nat)
    requires n > 0 && a < b < a + n
    ensures a % n != b % n
  {
    var q, r := a / n, b / n;
    assert a == q * n + a % n && b == r * n + b % n;
    if a % n == b % n {
      assert (r - q) * n == r * n - q * n;
      Multiple(r - q, n, b - a);
    }
  }

  lemma Multiple(d: int, n: nat, x: int)
    requires x == d * n && n > 0
    ensures !(0 < x < n)
  {
    MultipleIsBig(d, n);
  }

  // ----- The ring -----

  class TraceProjection {
    const cap: nat
    const events: array<TraceEvent>
    var pos: nat
    var count: nat
    var nextID: nat
    var traceID: string
    // Everything ever appended.
    ghost var history: seq<TraceEvent>

    ghost predicate Valid()
      reads this, events
    {
      && events.Length == cap
      && nextID == |history| && count == Min(|history|, cap)
      && (if cap == 0 then pos == 0 && history == [] else pos == |history| % cap)
      && Numbered(history) && Timed(history)
      && forall j {:trigger history[j]} :: |history| - count <= j < |history| ==> events[j % cap] == history[j]
    }

    // The last events, as many as fit.
    ghost function Contents(): seq<TraceEvent>
      requires Valid()
      reads this, events
    {
      history[|history| - count..]
    }

    // The ring holds the last cap events, or all if there are no more, oldest first.
    lemma HoldsTheLast()
      requires Valid()
      ensures Contents() == if |history| <= cap then history else history[|history| - cap..]
    {
      assert history[0..] == history;
    }

    constructor (capacity: nat)
      ensures Valid() && cap == capacity && history == [] && traceID == "" && fresh(events)
    {
      cap := capacity;
      events := new TraceEvent[capacity];
      pos, count, nextID, traceID, history := 0, 0, 0, "", [];
    }

    method SetTraceID(id: string)
      requires Valid()
      modifies this`traceID
      ensures Valid() && traceID == id
    {
      traceID := id;
    }

    method Append(e: TraceEvent, now: nat) returns (id: nat)
      requires Valid() && cap > 0 && now > 0
      modifies this`pos, this`count, this`nextID, this`history, events
      ensures Valid() && id == |history|
      ensures history == old(history) + [Stamped(e, id, now, traceID)]
      ensures old(history) <= history && |history| == id && IsStored(history[id - 1], e, id, now, traceID)
    {
      nextID := nextID + 1;
      id := nextID;
      var stamped := Stamped(e, id, now, traceID);
      ghost var before := history;
      events[pos] := stamped;
      ModStep(|history|, cap);
      pos := (pos + 1) % cap;
      if count < cap {
        count := count + 1;
      }
      history := history + [stamped];
      forall j | |history| - count <= j < |history|
        ensures events[j % cap] == history[j]
      {
        if j < |before| {
          assert history[j] == before[j];
          ModApart(j, |before|, cap);
        }
      }
    }

    // The i-th of the last n events.
    method At(n: nat, i: nat) returns (e: TraceEvent)
      requires Valid() && i < n <= count
      ensures e == history[|history| - n + i]
    {
      Wraps(|history|, n, i, cap);
      var start := (pos - n + cap) % cap;
      e := events[(start + i) % cap];
    }

    method Last(n: nat) returns (out: seq<TraceEvent>)
      requires Valid()
      ensures out == Contents()[|Contents()| - Min(n, |Contents()|)..]
    {
      var m := if n > count then count else n;
      if m == 0 {
        return [];
      }
      out := Newest(m);
    }

    method Newest(m: nat) returns (out: seq<TraceEvent>)
      requires Valid() && m <= count
      ensures out == history[|history| - m..]
    {
      out := [];
      for i := 0 to m
        invariant |out| == i && forall k :: 0 <= k < i ==> out[k] == history[|history| - m + k]
      {
        var e := At(m, i);
        out := out + [e];
      }
    }

    // walk, collecting the events that satisfy a test.
    lemma WhereNext(s: seq<TraceEvent>, k: nat, test: TraceEvent -> bool)
      requires k < |s|
      ensures Where(s[..k + 1], test) == Where(s[..k], test) + if test(s[k]) then [s[k]] else []
    {
      assert s[..k + 1][..k] == s[..k];
    }

    method WalkWhere(test: TraceEvent -> bool) returns (out: seq<TraceEvent>)
      requires Valid() && cap > 0
      ensures out == Where(Contents(), test)
    {
      out := [];
      ghost var all := Contents();
      for i := 0 to count
        invariant out == Where(all[..i], test)
      {
        var e := At(count, i);
        assert e == all[i];
        WhereNext(all, i, test);
        if test(e) {
          out := out + [e];
        }
      }
      assert all[..count] == all;
    }

    method Since(t: nat) returns (out: seq<TraceEvent>)
      requires Valid() && cap > 0
      ensures out == Where(Contents(), (e: TraceEvent) => e.timestamp > t)
      ensures Picks(out, Contents(), set i: nat | i < |Contents()| && Contents()[i].timestamp > t)
    {
      WherePicks(Contents(), (e: TraceEvent) => e.timestamp > t);
      out := WalkWhere((e: TraceEvent) => e.timestamp > t);
    }

    method ByComponent(c: string) returns (out: seq<TraceEvent>)
      requires Valid() && cap > 0
      ensures out == Where(Contents(), (e: TraceEvent) => e.component == c)
      ensures Picks(out, Contents(), set i: nat | i < |Contents()| && Contents()[i].component == c)
    {
      WherePicks(Contents(), (e: TraceEvent) => e.component == c);
      out := WalkWhere((e: TraceEvent) => e.component == c);
    }

    // The event with this id, if the ring still holds it.
    method Get(id: nat) returns (found: TraceEvent, ok: bool)
      requires Valid() && cap > 0
      ensures ok <==> |history| - count < id <= |history|
      ensures ok ==> found == history[id - 1]
    {
      found, ok := TraceEvent(0, 0, "", "", ""), false;
      for i := 0 to count
        invariant ok <==> |history| - count < id <= |history| - count + i
        invariant ok ==> found == history[id - 1]
      {
        var e := At(count, i);
        if e.id == id {
          found, ok := e, true;
        }
      }
    }

    method Stats() returns (stats: RingStats)
      requires Valid()
      ensures stats.capacity == cap && stats.count == |Contents()|
      ensures Contents() == [] ==> stats.oldest == stats.newest == 0
      ensures Contents() != [] ==>
        stats.oldest == Contents()[0].timestamp && stats.newest == Contents()[|Contents()| - 1].timestamp
    {
      stats := RingStats(cap, count, 0, 0);
      if count > 0 {
        var oldest := At(count, 0);
        var newest := At(1, 0);
        stats := stats.(oldest := oldest.timestamp, newest := newest.timestamp);
      }
    }
  }

  // The k-th event appended has id k.
  ghost predicate Numbered(history: seq<TraceEvent>) {
    forall j :: 0 <= j < |history| ==> history[j].id == j + 1
  }

  // Every event has a time: the one it came with, or the clock's.
  ghost predicate Timed(history: seq<TraceEvent>) {
    forall j :: 0 <= j < |history| ==> history[j].timestamp != 0
  }

  // ----- Export and import -----

  datatype Archive = Archive(createdAt: nat, filter: string, events: seq<TraceEvent>)

  method Export(r: TraceProjection, component: string, now: nat) returns (archive: Archive)
    requires r.Valid() && (component != "" ==> r.cap > 0)
    ensures archive.createdAt == now && archive.filter == component
    ensures component == "" ==> archive.events == r.Contents()
    ensures component != "" ==> archive.events == Where(r.Contents(), (e: TraceEvent) => e.component == component)
    ensures component != "" ==>
      Picks(archive.events, r.Contents(), set i: nat | i < |r.Contents()| && r.Contents()[i].component == component)
  {
    var events;
    if component != "" {
      events := r.ByComponent(component);
    } else {
      var stats := r.Stats();
      events := r.Last(stats.count);
    }
    archive := Archive(now, component, events);
  }

  // The same event, ids aside.
  ghost predicate SameButId(a: TraceEvent, b: TraceEvent) {
    a == b.(id := a.id)
  }

  ghost predicate SameButIds(a: seq<TraceEvent>, b: seq<TraceEvent>) {
    |a| == |b| && forall i :: 0 <= i < |a| ==> SameButId(a[i], b[i])
  }

  // What importing the events appends to a history of n events; clock[i] is the time
  // at which the i-th is appended.
  ghost function Restamped(events: seq<TraceEvent>, n: nat, clock: seq<nat>, traceID: string): seq<TraceEvent>
    requires |clock| == |events|
  {
    seq(|events|, i requires 0 <= i < |events| => Stamped(events[i], n + i + 1, clock[i], traceID))
  }

  method Import(archive: Archive, r: TraceProjection, clock: seq<nat>)
    requires r.Valid() && (archive.events != [] ==> r.cap > 0)
    requires |clock| == |archive.events| && forall i :: 0 <= i < |clock| ==> clock[i] > 0
    modifies r, r.events
    ensures r.Valid() && r.traceID == old(r.traceID)
    ensures r.history == old(r.history) + Restamped(archive.events, |old(r.history)|, clock, r.traceID)
    ensures |r.history| == |old(r.history)| + |archive.events| && forall i :: 0 <= i < |archive.events| ==>
      var id := |old(r.history)| + i + 1; IsStored(r.history[id - 1], archive.events[i], id, clock[i], r.traceID)
  {
    ghost var n, all := |r.history|, Restamped(archive.events, |r.history|, clock, r.traceID);
    for k := 0 to |archive.events|
      invariant r.Valid() && r.traceID == old(r.traceID)
      invariant r.history == old(r.history) + all[..k]
    {
      var _ := r.Append(archive.events[k], clock[k]);
      assert all[..k + 1] == all[..k] + [all[k]];
    }
    assert all[..|archive.events|] == all;
  }

  // An unfiltered export, imported into a fresh ring that is large enough, restores
  // the same events up to their ids, and with their ids exactly if the source
  // never wrapped.
  method RoundTrip(source: TraceProjection, capacity: nat, now: nat, clock: seq<nat>) returns (target: TraceProjection)
    requires source.Valid() && capacity >= source.count
    requires |clock| == source.count && forall i :: 0 <= i < |clock| ==> clock[i] > 0
    ensures target.Valid() && fresh(target) && fresh(target.events)
    ensures SameButIds(target.Contents(), old(source.Contents()))
    ensures target.Contents() == old(source.Contents()) <==> old(|source.history| == source.count || source.count == 0)
  {
    ghost var all := source.Contents();
    ghost var copy := Restamped(all, 0, clock, "");
    Restored(source.history, source.count, clock);
    assert SameButIds(copy, all) && (copy == all <==> |source.history| == source.count || source.count == 0);
    var archive := Export(source, "", now);
    assert archive.events == all;
    target := Restore(archive, capacity, clock);
    assert target.Contents() == copy;

  }

  // A fresh ring with the archive's events.
  method Restore(archive: Archive, capacity: nat, clock: seq<nat>) returns (target: TraceProjection)
    requires capacity >= |archive.events| == |clock| && forall i :: 0 <= i < |clock| ==> clock[i] > 0
    ensures target.Valid() && fresh(target) && fresh(target.events)
    ensures target.Contents() == Restamped(archive.events, 0, clock, "")
  {
    target := new TraceProjection(capacity);
    Import(archive, target, clock);
    assert target.history == Restamped(archive.events, 0, clock, "");
    assert target.history[0..] == target.history;
  }

  // A suffix of a history, stamped anew.
  lemma Restored(history: seq<TraceEvent>, n: nat, clock: seq<nat>)
    requires n <= |history| && |clock| == n && Numbered(history) && Timed(history)
    ensures SameButIds(Restamped(history[|history| - n..], 0, clock, ""), history[|history| - n..])
    ensures Restamped(history[|history| - n..], 0, clock, "") == history[|history| - n..] <==> |history| == n || n == 0
  {
    var b := history[|history| - n..];
    var copy := Restamped(b, 0, clock, "");
    forall i | 0 <= i < n
      ensures SameButId(copy[i], b[i]) && copy[i].id == i + 1 && b[i].id == |history| - n + i + 1
    {
      assert b[i] == history[|history| - n + i];
    }
    if n > 0 && |history| != n {
      assert copy[0].id != b[0].id;
    }
  }
}
