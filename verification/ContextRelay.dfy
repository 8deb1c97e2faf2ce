// The context relay (cortex/relay.go) and its monitor (cortex/monitor.go).
module ContextRelay {
  import opened Wrappers
  import opened Transcript
  import opened SessionHistory
  import opened SanitizeTheorems
  import opened HistoryTheorems

  datatype MonitorState = Idle | Spawning | Ready | Swapping

  // Context use as a fraction of the window.
  function Usage(total: int, maxTokens: int): (r: real)
    ensures maxTokens > 0 ==> r * maxTokens as real == total as real
    ensures maxTokens <= 0 ==> r == 0.0
  {
    if maxTokens <= 0 then 0.0 else total as real / maxTokens as real
  }

  ghost function TokensIn(turns: seq<(int, int)>): int {
    if turns == [] then 0 else TokensIn(turns[..|turns| - 1]) + turns[|turns| - 1].0
  }

  ghost function TokensOut(turns: seq<(int, int)>): int {
    if turns == [] then 0 else TokensOut(turns[..|turns| - 1]) + turns[|turns| - 1].1
  }

  class ContextMonitor {
    const maxTokens: int
    const spawnAt: real
    const swapAt: real
    var totalIn: int
    var totalOut: int
    var state: MonitorState

    constructor (maxTokens: int, spawnAt: real, swapAt: real)
      ensures state == Idle && totalIn == totalOut == 0
      ensures this.maxTokens == maxTokens && this.spawnAt == spawnAt && this.swapAt == swapAt
    {
      this.maxTokens, this.spawnAt, this.swapAt := maxTokens, spawnAt, swapAt;
      totalIn, totalOut, state := 0, 0, Idle;
    }

    function UsageNow(): (r: real)
      reads this
      ensures maxTokens > 0 ==> r * maxTokens as real == (totalIn + totalOut) as real
      ensures maxTokens <= 0 ==> r == 0.0
    {
      Usage(totalIn + totalOut, maxTokens)
    }

    method Record(inputTokens: int, outputTokens: int) returns (fired: bool)
      modifies this
      ensures totalIn == old(totalIn) + inputTokens && totalOut == old(totalOut) + outputTokens
      ensures state == if UsageNow() >= swapAt && old(state) == Ready then Swapping
                       else if UsageNow() >= spawnAt && old(state) == Idle then Spawning
                       else old(state)
      ensures fired <==> state != old(state)
    {
      totalIn := totalIn + inputTokens;
      totalOut := totalOut + outputTokens;
      if UsageNow() >= swapAt && state == Ready {
        state := Swapping;
        return true;
      }
      if UsageNow() >= spawnAt && state == Idle {
        state := Spawning;
        return true;
      }
      return false;
    }

    // Turns recorded by others while the relay is at work.
    method RecordAll(turns: seq<(int, int)>)
      modifies this
      ensures Raced(old(state), state) && (turns == [] ==> state == old(state))
      ensures totalIn == old(totalIn) + TokensIn(turns) && totalOut == old(totalOut) + TokensOut(turns)
    {
      for k := 0 to |turns|
        invariant Raced(old(state), state) && (k == 0 ==> state == old(state))
        invariant totalIn == old(totalIn) + TokensIn(turns[..k]) && totalOut == old(totalOut) + TokensOut(turns[..k])
      {
        assert turns[..k + 1][..k] == turns[..k];
        var _ := Record(turns[k].0, turns[k].1);
      }
      assert turns[..|turns|] == turns;
    }

    method SetState(s: MonitorState)
      modifies this`state
      ensures state == s
    {
      state := s;
    }

    function ShouldSpawn(): bool
      reads this
    {
      UsageNow() >= spawnAt && state == Idle
    }

    function ShouldSwap(): bool
      reads this
    {
      UsageNow() >= swapAt && state == Ready
    }

    method Reset()
      modifies this
      ensures totalIn == totalOut == 0 && state == Idle
    {
      totalIn, totalOut, state := 0, 0, Idle;
    }
  }

  // What recording can do to the state, without the relay's lock.
  predicate Raced(before: MonitorState, after: MonitorState) {
    after == before || (before == Idle && after == Spawning) || (before == Ready && after == Swapping)
  }

  // How the outside world answers one spawn: whether there is a driver factory,
  // whether it and the driver's start succeed, and how many replays do.
  datatype Spawn = Spawn(configured: bool, created: bool, started: bool, replays: nat)

  const SUMMARY_CHARS := 50_000

  // The summary a backup session starts with: of all but the recent entries, if there are any.
  ghost function RelaySummary(h: seq<Entry>): string {
    if |h| > KEEP_RECENT then SummaryText(h[..|h| - KEEP_RECENT], "", SUMMARY_CHARS) else ""
  }

  ghost function BackupSeed(h: seq<Entry>): seq<Entry> {
    AppendedAll([], SeedEntries(h, RelaySummary(h), KEEP_RECENT), 0)
  }

  ghost function UserCount(h: seq<Entry>): nat {
    if h == [] then 0 else UserCount(h[..|h| - 1]) + if h[|h| - 1].role == ROLE_USER then 1 else 0
  }

  // A spawn succeeds if nothing fails before every user entry of the seed is replayed.
  ghost predicate SpawnSucceeds(spawn: Spawn, h: seq<Entry>) {
    spawn.configured && spawn.created && spawn.started && UserCount(BackupSeed(h)) <= spawn.replays
  }

  // Turns recorded while CheckAndRelay holds the relay's lock, at its two gaps.
  datatype Race = Race(afterState: seq<(int, int)>, beforeEnd: seq<(int, int)>)

  type DriverId = nat

  class RelayManager {
    const monitor: ContextMonitor
    var activeSession: History
    var activeDriver: DriverId
    var backupSession: History?
    var backupDriver: Option<DriverId>
    var queue: seq<string>
    // The next driver of the factory; the drivers stopped so far, in order; the
    // prompts ever queued and drained.
    var nextDriver: nat
    ghost var stopped: seq<DriverId>
    ghost var queued: seq<string>
    ghost var drained: seq<string>

    // Every driver started is exactly one of active, backup or stopped, and none
    // was stopped twice.
    ghost predicate DriversAccounted()
      reads this
    {
      && activeDriver < nextDriver && activeDriver !in stopped
      && (backupDriver.Some? ==>
            backupDriver.value < nextDriver && backupDriver.value != activeDriver && backupDriver.value !in stopped)
      && (forall d :: 0 <= d < nextDriver ==> d == activeDriver || Some(d) == backupDriver || d in stopped)
      && (forall k :: 0 <= k < |stopped| ==> stopped[k] < nextDriver)
      && forall j, k :: 0 <= j < k < |stopped| ==> stopped[j] != stopped[k]
    }

    // Holds whenever the lock is free.
    ghost predicate Valid()
      reads this, monitor
    {
      && DriversAccounted()
      && (backupDriver.Some? <==> monitor.state == Ready || monitor.state == Swapping)
      && (backupDriver.Some? ==> backupSession != null && backupSession != activeSession)
      && queued == drained + queue
    }

    constructor (monitor: ContextMonitor, session: History)
      modifies monitor
      ensures Valid() && this.monitor == monitor && activeSession == session && queue == []
    {
      this.monitor, activeSession, activeDriver := monitor, session, 0;
      backupSession, backupDriver, queue := null, None, [];
      nextDriver, stopped, queued, drained := 1, [], [], [];
      new;
      monitor.SetState(Idle);
    }

    // A turn recorded between relays keeps the invariant.
    method RecordTurn(inputTokens: int, outputTokens: int)
      requires Valid()
      modifies monitor
      ensures Valid()
    {
      var _ := monitor.Record(inputTokens, outputTokens);
    }

    method QueuePrompt(prompt: string)
      requires Valid()
      modifies this`queue, this`queued
      ensures Valid() && queue == old(queue) + [prompt] && queued == old(queued) + [prompt]
    {
      queue := queue + [prompt];
      queued := queued + [prompt];
    }

    method DrainQueue() returns (q: seq<string>)
      requires Valid()
      modifies this`queue, this`drained
      ensures Valid() && q == old(queue) && queue == [] && drained == old(drained) + q
    {
      q := queue;
      drained := drained + queue;
      queue := [];
    }

    method SpawnBackground(spawn: Spawn) returns (ok: bool)
      requires DriversAccounted() && backupDriver.None? && monitor.state == Spawning
      modifies this`backupSession, this`backupDriver, this`nextDriver, this`stopped, monitor`state
      ensures DriversAccounted()
      ensures ok <==> SpawnSucceeds(spawn, activeSession.entries)
      // A driver that was started, but could not be warmed up, is stopped.
      ensures stopped == old(stopped) +
        if !ok && spawn.configured && spawn.created && spawn.started then [old(nextDriver)] else []
      ensures ok ==> monitor.state == Ready && backupDriver.Some? && backupSession != null && fresh(backupSession)
      ensures ok ==> backupSession.entries == BackupSeed(activeSession.entries)
      ensures !ok ==> monitor.state == Spawning && backupDriver.None?
    {
      if !spawn.configured {
        return false;
      }
      backupSession := SeedBackup();
      if !spawn.created || !spawn.started {
        return false;
      }
      ok := WarmUp(backupSession, spawn.replays);
      if ok {
        monitor.SetState(Ready);
      }
    }

    // The started driver is warmed up with the seed and becomes the backup, or is stopped.
    method WarmUp(seed: History, replays: nat) returns (ok: bool)
      requires DriversAccounted() && backupDriver.None?
      modifies this`backupDriver, this`nextDriver, this`stopped
      ensures DriversAccounted() && (backupDriver.Some? <==> ok)
      ensures ok <==> UserCount(seed.entries) <= replays
      ensures stopped == old(stopped) + if ok then [] else [old(nextDriver)]
    {
      var id := nextDriver;
      nextDriver := nextDriver + 1;
      ok := Replay(seed, replays);
      if ok {
        backupDriver := Some(id);
      } else {
        stopped := stopped + [id];
      }
    }

    method SeedBackup() returns (seed: History)
      ensures fresh(seed) && seed.entries == BackupSeed(activeSession.entries)
    {
      var entries := activeSession.entries;
      var summary := "";
      if |entries| > KEEP_RECENT {
        summary := ExtractSummaryText(entries[..|entries| - KEEP_RECENT], SUMMARY_CHARS);
      }
      seed := SeedSession(activeSession, summary, KEEP_RECENT);
    }

    // The replay of the seed's user entries, of which the first `replays` go through.
    static method Replay(seed: History, replays: nat) returns (ok: bool)
      ensures ok <==> UserCount(seed.entries) <= replays
    {
      var sent := 0;
      for k := 0 to |seed.entries|
        invariant sent == UserCount(seed.entries[..k]) <= replays
      {
        UserCountNext(seed.entries, k);
        if seed.entries[k].role == ROLE_USER {
          if sent == replays {
            UserCountGrows(seed.entries, k + 1);
            return false;
          }
          sent := sent + 1;
        }
      }
      assert seed.entries[..|seed.entries|] == seed.entries;
      return true;
    }

    // The backup takes over; the old driver is stopped, the monitor starts afresh.
    method ExecuteSwap() returns (ok: bool)
      requires DriversAccounted()
      modifies this`activeSession, this`activeDriver, this`backupSession, this`backupDriver, this`stopped, monitor
      ensures DriversAccounted()
      ensures ok <==> old(backupDriver.Some? && backupSession != null)
      ensures ok ==> monitor.state == Idle && monitor.totalIn == monitor.totalOut == 0
      ensures ok ==> activeDriver == old(backupDriver.value) && activeSession == old(backupSession)
      ensures ok ==> backupDriver == None
      ensures ok ==> stopped == old(stopped) + [old(activeDriver)]
      ensures !ok ==> unchanged(monitor) && activeDriver == old(activeDriver) && activeSession == old(activeSession)
                      && backupDriver == old(backupDriver) && backupSession == old(backupSession)
                      && stopped == old(stopped)
    {
      if backupDriver.None? || backupSession == null {
        return false;
      }
      var oldDriver := activeDriver;
      activeSession, activeDriver := backupSession, backupDriver.value;
      backupSession, backupDriver := null, None;
      stopped := stopped + [oldDriver];
      monitor.Reset();
      ok := true;
    }

    // A spawn that fails leaves the monitor idle and the active session compacted.
    method SpawnOrCompact(spawn: Spawn)
      requires Valid() && monitor.state == Spawning
      modifies this`backupSession, this`backupDriver, this`nextDriver, this`stopped, monitor`state,
        activeSession`entries
      ensures Valid() && activeDriver == old(activeDriver)
      ensures monitor.state == Ready <==> SpawnSucceeds(spawn, old(activeSession.entries))
      ensures monitor.state == Ready ==> activeSession.entries == old(activeSession.entries)
      ensures monitor.state != Ready ==> monitor.state == Idle
      ensures monitor.state != Ready ==>
        activeSession.entries == Compacted(old(activeSession.entries), KEEP_RECENT, activeSession.maxTokens)
    {
      var ok := SpawnBackground(spawn);
      if !ok {
        monitor.SetState(Idle);
        var _, _ := Compact(activeSession, KEEP_RECENT);
      }
    }

    // Called after each turn. Other goroutines may record turns while it runs.
    method CheckAndRelay(spawn: Spawn, race: Race) returns (session: History, driver: DriverId)
      requires Valid()
      modifies this`activeSession, this`activeDriver, this`backupSession, this`backupDriver, this`nextDriver,
        this`stopped
      modifies monitor, activeSession`entries
      ensures Valid() && session == activeSession && driver == activeDriver
      // A swap promotes the backup and stops exactly the driver it replaces.
      ensures old(monitor.state) == Swapping ==> old(backupDriver) == Some(driver) && session == old(backupSession)
      ensures (driver == old(activeDriver) && session == old(activeSession))
           || (old(backupDriver) == Some(driver) && session == old(backupSession)
               && stopped == old(stopped) + [old(activeDriver)] && backupDriver == None)
      ensures driver != old(activeDriver) && race.beforeEnd == [] ==>
                monitor.state == Idle && monitor.totalIn == monitor.totalOut == 0
      // What decides whether a backup is spawned, and whether it takes over.
      ensures old(monitor.state) == Spawning ==>
                (backupDriver.Some? <==> SpawnSucceeds(spawn, old(activeSession.entries)))
      ensures old(monitor.state) == Idle && race.afterState == [] ==>
                (backupDriver.Some? <==>
                  old(monitor.UsageNow()) >= monitor.spawnAt && SpawnSucceeds(spawn, old(activeSession.entries)))
      ensures old(monitor.state) == Ready && race.afterState == [] ==>
                (driver != old(activeDriver) <==> old(monitor.UsageNow()) >= monitor.swapAt)
      // Compaction is the only change to a session, and only if the spawn failed.
      ensures old(activeSession).entries == old(activeSession.entries)
           || old(activeSession).entries ==
             Compacted(old(activeSession.entries), KEEP_RECENT, old(activeSession).maxTokens)
    {
      var state := monitor.state;
      monitor.RecordAll(race.afterState);
      match state {
        case Idle =>
          if monitor.ShouldSpawn() {
            monitor.SetState(Spawning);
            SpawnOrCompact(spawn);
          }
        case Spawning =>
          SpawnOrCompact(spawn);
        case Ready =>
          if monitor.ShouldSwap() {
            var _ := ExecuteSwap();
          }
        case Swapping =>
          var _ := ExecuteSwap();
      }
      monitor.RecordAll(race.beforeEnd);
      return activeSession, activeDriver;
    }
  }

  lemma {:induction false} UserCountNext(h: seq<Entry>, k: nat)
    requires k < |h|
    ensures UserCount(h[..k + 1]) == UserCount(h[..k]) + if h[k].role == ROLE_USER then 1 else 0
  {
    assert h[..k + 1][..k] == h[..k];
  }

  lemma {:induction false} UserCountGrows(h: seq<Entry>, k: nat)
    requires k <= |h|
    ensures UserCount(h[..k]) <= UserCount(h)
    decreases |h| - k
  {
    if k < |h| {
      UserCountNext(h, k);
      UserCountGrows(h, k + 1);
    } else {
      assert h[..k] == h;
    }
  }

  // Whatever a relay does to a session keeps its tool calls answered.
  lemma RelayKeepsAnswers(h: seq<Entry>, maxTokens: int, d: nat)
    requires AnsweredWithin(h, d)
    ensures AnsweredWithin(Compacted(h, KEEP_RECENT, maxTokens), d)
    ensures AnsweredWithin(BackupSeed(h), d)
  {
    CompactedStaysAnswered(h, KEEP_RECENT, maxTokens, d);
    SeedStaysAnswered(h, RelaySummary(h), KEEP_RECENT, d);
  }

  // ----- Seeding and spawning, in the entries' own terms -----

  ghost function UserPlaces(h: seq<Entry>): set<nat> {
    set k: nat | k < |h| && h[k].role == "user"
  }

  lemma {:induction false} UserCountSays(h: seq<Entry>)
    ensures UserCount(h) == |UserPlaces(h)|
  {
    if h == [] {
      assert UserPlaces(h) == {};
    } else {
      var n := |h| - 1;
      UserCountSays(h[..n]);
      if h[n].role == "user" {
        assert UserPlaces(h) == UserPlaces(h[..n]) + {n};
      } else {
        assert UserPlaces(h) == UserPlaces(h[..n]);
      }
    }
  }

  // A spawn succeeds exactly if there is a driver, it starts, and every user entry of the
  // seed is sent.
  lemma SpawnSays(spawn: Spawn, h: seq<Entry>)
    ensures SpawnSucceeds(spawn, h) <==>
      spawn.configured && spawn.created && spawn.started && |UserPlaces(BackupSeed(h))| <= spawn.replays
  {
    UserCountSays(BackupSeed(h));
  }

  // The backup holds the last four entries, after the transcript of as many of the entries
  // before them as fit in 50000 bytes, counted from the first.
  lemma BackupSays(h: seq<Entry>) returns (summary: string, k: nat)
    ensures |h| <= 4 ==> summary == "" && IsSeed(h, 0, summary, BackupSeed(h))
    ensures |h| > 4 ==> IsSeed(h, |h| - 4, summary, BackupSeed(h))
    ensures |h| > 4 ==> k <= |h| - 4 && IsTranscript(summary, h[..k])
    ensures |h| > 4 && k > 0 ==> EntryStart(h, k) <= 50_000
    ensures |h| > 4 && k < |h| - 4 ==> EntryStart(h, k + 1) > 50_000
  {
    summary, k := RelaySummary(h), 0;
    SeedSays(h, summary, KEEP_RECENT);
    if |h| > 4 {
      var earlier := h[..|h| - 4];
      k := SummarySays(earlier, SUMMARY_CHARS);
      assert earlier[..k] == h[..k];
      EntryStartPrefix(earlier, h, k);
      if k < |earlier| {
        EntryStartPrefix(earlier, h, k + 1);
      }
    }
  }
}
