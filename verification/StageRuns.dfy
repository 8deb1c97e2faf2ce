// Sequential stage execution (broker/simple_orchestrator.go) and the broker's
// success decision (broker/broker.go). What the sandbox, the driver, the gate and
// the clock do in a stage is given by a script.
module StageRuns {

  datatype EventKind = StageStarted | StageCompleted | StageFailed | GatePassed | GateFailed | ExecutionDone

  datatype Event = Event(execID: string, kind: EventKind, stage: string, message: string)

  datatype Try = Ok | Err(message: string)

  // How the driver's messages end: the channel closes, or the context is done.
  datatype Ending = Closed | Interrupted(message: string)

  datatype Script = Script(sandbox: Try, start: Try, send: Try, messages: nat, ending: Ending, gate: Try)

  datatype Stage = Stage(name: string, gateName: string, tokenBudget: int)

  datatype Plan = Plan(id: string, stages: seq<Stage>)

  const EXECUTION_SUCCESS := "success"

  datatype Effect = Created(stage: nat) | Destroyed(stage: nat) | Started(stage: nat) | Stopped(stage: nat)

  // ----- What one stage does -----

  // Receiving stops at the token budget, or when the messages end.
  function ReceiveResult(stage: Stage, script: Script): Try {
    if stage.tokenBudget > 0 && script.messages >= stage.tokenBudget then Ok
    else match script.ending
      case Closed => Ok
      case Interrupted(m) => Err(m)
  }

  function StageResult(stage: Stage, script: Script): Try {
    if script.sandbox.Err? then Err("create sandbox: " + script.sandbox.message)
    else if script.start.Err? then Err("start driver: " + script.start.message)
    else if script.send.Err? then Err("send prompt: " + script.send.message)
    else if ReceiveResult(stage, script).Err? then ReceiveResult(stage, script)
    else if script.gate.Err? then Err("gate " + stage.gateName + ": " + script.gate.message)
    else Ok
  }

  // The stage got as far as its gate.
  predicate ReachesGate(stage: Stage, script: Script) {
    script.sandbox.Ok? && script.start.Ok? && script.send.Ok? && ReceiveResult(stage, script).Ok?
  }

  predicate PassesGate(stage: Stage, script: Script) {
    ReachesGate(stage, script) && script.gate.Ok?
  }

  // ----- Channels -----

  // A buffered channel nobody reads from: a send needs room in the buffer.
  class Channel {
    const capacity: nat
    var sent: seq<Event>
    var closed: bool

    constructor (capacity: nat)
      ensures this.capacity == capacity && sent == [] && !closed
    {
      this.capacity, sent, closed := capacity, [], false;
    }

    method Send(e: Event)
      requires |sent| < capacity && !closed
      modifies this
      ensures sent == old(sent) + [e] && !closed
    {
      sent := sent + [e];
    }

    method Close()
      requires !closed
      modifies this
      ensures closed && sent == old(sent)
    {
      closed := true;
    }
  }

  // ----- The events of a run -----

  ghost function StageEvents(execID: string, stage: Stage, script: Script): seq<Event> {
    [Event(execID, StageStarted, stage.name, "")] + GateEvents(execID, stage, script)
  }

  ghost function GateEvents(execID: string, stage: Stage, script: Script): seq<Event> {
    if PassesGate(stage, script) then
      [Event(execID, GatePassed, stage.name, ""), Event(execID, StageCompleted, stage.name, "")]
    else if ReachesGate(stage, script) then [Event(execID, GateFailed, stage.name, script.gate.message)]
    else []
  }

  ghost function StagesEvents(plan: Plan, scripts: seq<Script>, n: nat): (r: seq<Event>)
    requires n <= |scripts| == |plan.stages|
    ensures |r| <= 3 * n
  {
    if n == 0 then []
    else StagesEvents(plan, scripts, n - 1) + StageEvents(plan.id, plan.stages[n - 1], scripts[n - 1])
  }

  // The closing events of a run that stage si failed.
  ghost function FailureEvents(plan: Plan, si: nat, message: string): seq<Event>
    requires si < |plan.stages|
  {
    [Event(plan.id, StageFailed, plan.stages[si].name, message),
      Event(plan.id, ExecutionDone, "", "failed: " + message)]
  }

  // The stages passed before the first that did not.
  ghost function PassedStages(stages: seq<Stage>, scripts: seq<Script>): (n: nat)
    requires |scripts| == |stages|
    ensures n <= |stages| && (n < |stages| ==> !PassesGate(stages[n], scripts[n]))
    ensures forall i :: 0 <= i < n ==> PassesGate(stages[i], scripts[i])
  {
    if stages == [] then 0
    else if PassesGate(stages[0], scripts[0]) then 1 + PassedStages(stages[1..], scripts[1..])
    else 0
  }

  // All that a run sends: either every stage passed, or the first that did not ends it.
  ghost function RunEvents(plan: Plan, scripts: seq<Script>): seq<Event>
    requires |scripts| == |plan.stages|
  {
    var n := PassedStages(plan.stages, scripts);
    if n == |plan.stages| then
      StagesEvents(plan, scripts, n) + [Event(plan.id, ExecutionDone, "", EXECUTION_SUCCESS)]
    else
      FailedIsErr(plan.stages[n], scripts[n]);
      StagesEvents(plan, scripts, n + 1) + FailureEvents(plan, n, StageResult(plan.stages[n], scripts[n]).message)
  }

  lemma FailedIsErr(stage: Stage, script: Script)
    ensures StageResult(stage, script).Err? <==> !PassesGate(stage, script)
  {
  }

  ghost predicate AllPass(stages: seq<Stage>, scripts: seq<Script>)
    requires |scripts| == |stages|
  {
    forall i :: 0 <= i < |stages| ==> PassesGate(stages[i], scripts[i])
  }

  // The stages entered: those passed, and the one that failed.
  ghost function StagesEntered(stages: seq<Stage>, scripts: seq<Script>): (r: nat)
    requires |scripts| == |stages|
    ensures r <= |scripts|
  {
    var n := PassedStages(stages, scripts);
    if n < |stages| then n + 1 else n
  }

  // The effects of a stage, in order: what is set up is torn down in reverse.
  ghost function StageEffects(i: nat, script: Script): seq<Effect> {
    if script.sandbox.Err? then []
    else if script.start.Err? then [Created(i), Destroyed(i)]
    else [Created(i), Started(i), Stopped(i), Destroyed(i)]
  }

  ghost function RunEffects(scripts: seq<Script>, n: nat): seq<Effect>
    requires n <= |scripts|
  {
    if n == 0 then [] else RunEffects(scripts, n - 1) + StageEffects(n - 1, scripts[n - 1])
  }

  // ----- The orchestrator -----

  class SimpleOrchestrator {
    var execs: set<string>
    var inputs: set<string>
    ghost var effects: seq<Effect>

    constructor ()
      ensures execs == {} && inputs == {} && effects == []
    {
      execs, inputs, effects := {}, {}, [];
    }

    // A stage sends at most three events, of which none is lost or blocked.
    method ExecuteStage(execID: string, i: nat, stage: Stage, script: Script, ch: Channel) returns (r: Try)
      requires !ch.closed && |ch.sent| + 3 <= ch.capacity
      modifies this`effects, ch
      ensures r == StageResult(stage, script)
      ensures !ch.closed && ch.sent == old(ch.sent) + StageEvents(execID, stage, script)
      ensures effects == old(effects) + StageEffects(i, script)
    {
      ch.Send(Event(execID, StageStarted, stage.name, ""));
      if script.sandbox.Err? {
        return Err("create sandbox: " + script.sandbox.message);
      }
      effects := effects + [Created(i)];
      if script.start.Err? {
        effects := effects + [Destroyed(i)];
        return Err("start driver: " + script.start.message);
      }
      effects := effects + [Started(i)];
      r := Converse(execID, stage, script, ch);
      effects := effects + [Stopped(i)];
      effects := effects + [Destroyed(i)];
    }

    // The part of a stage between starting and stopping its driver.
    method Converse(execID: string, stage: Stage, script: Script, ch: Channel) returns (r: Try)
      requires script.sandbox.Ok? && script.start.Ok? && !ch.closed && |ch.sent| + 2 <= ch.capacity
      modifies ch
      ensures r == StageResult(stage, script)
      ensures !ch.closed && ch.sent == old(ch.sent) + GateEvents(execID, stage, script)
    {
      if script.send.Err? {
        return Err("send prompt: " + script.send.message);
      }
      var received := Receive(stage, script);
      if received.Err? {
        return received;
      }
      if script.gate.Err? {
        ch.Send(Event(execID, GateFailed, stage.name, script.gate.message));
        return Err("gate " + stage.gateName + ": " + script.gate.message);
      }
      ch.Send(Event(execID, GatePassed, stage.name, ""));
      ch.Send(Event(execID, StageCompleted, stage.name, ""));
      return Ok;
    }

    method Receive(stage: Stage, script: Script) returns (r: Try)
      ensures r == ReceiveResult(stage, script)
      ensures r.Ok? <==> script.ending.Closed? || (stage.tokenBudget > 0 && script.messages >= stage.tokenBudget)
      ensures r.Err? ==> script.ending == Interrupted(r.message)
    {
      var msgCount := 0;
      while msgCount < script.messages
        invariant 0 <= msgCount <= script.messages
        invariant stage.tokenBudget > 0 ==> msgCount < stage.tokenBudget
      {
        msgCount := msgCount + 1;
        if stage.tokenBudget > 0 && msgCount >= stage.tokenBudget {
          return Ok;
        }
      }
      match script.ending
      case Closed => return Ok;
      case Interrupted(m) => return Err(m);
    }

    // The whole run; its events fit the channel even if nobody reads them.
    method Execute(plan: Plan, scripts: seq<Script>) returns (ch: Channel)
      requires |scripts| == |plan.stages|
      modifies this
      ensures fresh(ch) && ch.closed && ch.capacity == 3 * |plan.stages| + 1
      ensures ch.sent == RunEvents(plan, scripts)
      ensures exists n :: IsRun(plan, scripts, ch.sent, n)
      ensures execs == old(execs) - {plan.id} && inputs == old(inputs) - {plan.id}
      ensures effects == old(effects) + RunEffects(scripts, StagesEntered(plan.stages, scripts))
    {
      ch := new Channel(3 * |plan.stages| + 1);
      execs, inputs := execs + {plan.id}, inputs + {plan.id};
      RunStages(plan, scripts, ch);
      execs, inputs := execs - {plan.id}, inputs - {plan.id};
      ch.Close();
      RunSays(plan, scripts);
    }

    // The stage loop and the final event.
    method RunStages(plan: Plan, scripts: seq<Script>, ch: Channel)
      requires |scripts| == |plan.stages| && !ch.closed && ch.sent == [] && ch.capacity == 3 * |plan.stages| + 1
      modifies this`effects, ch
      ensures !ch.closed && ch.sent == RunEvents(plan, scripts)
      ensures effects == old(effects) + RunEffects(scripts, StagesEntered(plan.stages, scripts))
    {
      for si := 0 to |plan.stages|
        invariant !ch.closed && ch.sent == StagesEvents(plan, scripts, si)
        invariant si <= PassedStages(plan.stages, scripts)
        invariant effects == old(effects) + RunEffects(scripts, si)
      {
        EffectsExtend(old(effects), scripts, si);
        var failed := RunStage(plan, scripts, si, ch);
        if failed {
          return;
        }
      }
      ch.Send(Event(plan.id, ExecutionDone, "", EXECUTION_SUCCESS));
    }

    // One iteration of the loop; a failed stage also gets its two closing events.
    method RunStage(plan: Plan, scripts: seq<Script>, si: nat, ch: Channel) returns (failed: bool)
      requires si < |plan.stages| == |scripts| && ch.capacity == 3 * |plan.stages| + 1
      requires !ch.closed && ch.sent == StagesEvents(plan, scripts, si) && si <= PassedStages(plan.stages, scripts)
      modifies this`effects, ch
      ensures failed <==> si == PassedStages(plan.stages, scripts)
      ensures !ch.closed
      ensures ch.sent == if failed then RunEvents(plan, scripts) else StagesEvents(plan, scripts, si + 1)
      ensures effects == old(effects) + StageEffects(si, scripts[si])
    {
      var stage, script := plan.stages[si], scripts[si];
      var r := ExecuteStage(plan.id, si, stage, script, ch);
      FailedIsErr(stage, script);
      assert ch.sent == StagesEvents(plan, scripts, si + 1);
      failed := r.Err?;
      if failed {
        ch.Send(Event(plan.id, StageFailed, stage.name, r.message));
        ch.Send(Event(plan.id, ExecutionDone, "", "failed: " + r.message));
        assert ch.sent == StagesEvents(plan, scripts, si + 1) + FailureEvents(plan, si, r.message);
      }
    }
  }

  // ----- What a run's events promise -----

  ghost function Kinds(events: seq<Event>): seq<EventKind> {
    seq(|events|, i requires 0 <= i < |events| => events[i].kind)
  }

  // The events of n stages that went through.
  ghost function Passes(n: nat): (r: seq<EventKind>)
    ensures |r| == 3 * n
  {
    if n == 0 then [] else Passes(n - 1) + [StageStarted, GatePassed, StageCompleted]
  }

  // The events of a stage that did not.
  ghost function Failure(gateFailed: bool): seq<EventKind> {
    [StageStarted] + (if gateFailed then [GateFailed] else []) + [StageFailed]
  }

  lemma KindsConcat(a: seq<Event>, b: seq<Event>)
    ensures Kinds(a + b) == Kinds(a) + Kinds(b)
  {
  }

  lemma {:induction false} PassedKinds(plan: Plan, scripts: seq<Script>, n: nat)
    requires |scripts| == |plan.stages| && n <= PassedStages(plan.stages, scripts)
    ensures Kinds(StagesEvents(plan, scripts, n)) == Passes(n)
  {
    if n > 0 {
      PassedKinds(plan, scripts, n - 1);
      var last := StageEvents(plan.id, plan.stages[n - 1], scripts[n - 1]);
      KindsConcat(StagesEvents(plan, scripts, n - 1), last);
      assert Kinds(last) == [StageStarted, GatePassed, StageCompleted];
    }
  }

  // The events are (started, gate passed, completed)* and one final done; a stage
  // that fails comes last, and its failure is reported right before the done.
  lemma {:induction false} RunShape(plan: Plan, scripts: seq<Script>)
    requires |scripts| == |plan.stages|
    ensures var n := PassedStages(plan.stages, scripts);
      Kinds(RunEvents(plan, scripts)) ==
        Passes(n) + (if n == |plan.stages| then [] else Failure(ReachesGate(plan.stages[n], scripts[n]))) +
          [ExecutionDone]
  {
    var n := PassedStages(plan.stages, scripts);
    PassedKinds(plan, scripts, n);
    if n == |plan.stages| {
      KindsConcat(StagesEvents(plan, scripts, n), [Event(plan.id, ExecutionDone, "", EXECUTION_SUCCESS)]);
    } else {
      FailedKinds(plan, scripts);
    }
  }

  lemma {:induction false} FailedKinds(plan: Plan, scripts: seq<Script>)
    requires |scripts| == |plan.stages| && PassedStages(plan.stages, scripts) < |plan.stages|
    ensures var n := PassedStages(plan.stages, scripts);
      Kinds(RunEvents(plan, scripts)) == Passes(n) + Failure(ReachesGate(plan.stages[n], scripts[n])) + [ExecutionDone]
  {
    var n := PassedStages(plan.stages, scripts);
    var stage, script := plan.stages[n], scripts[n];
    FailedIsErr(stage, script);
    PassedKinds(plan, scripts, n);
    var last := StageEvents(plan.id, stage, script);
    var closing := FailureEvents(plan, n, StageResult(stage, script).message);
    KindsConcat(StagesEvents(plan, scripts, n), last);
    KindsConcat(StagesEvents(plan, scripts, n + 1), closing);
    assert Kinds(last) == [StageStarted] + if ReachesGate(stage, script) then [GateFailed] else [];
    assert Kinds(closing) == [StageFailed, ExecutionDone];
  }

  // At most 3 n + 1 events for n stages: no send ever waits for a reader.
  lemma RunFits(plan: Plan, scripts: seq<Script>)
    requires |scripts| == |plan.stages|
    ensures |RunEvents(plan, scripts)| <= 3 * |plan.stages| + 1
  {
    RunShape(plan, scripts);
    assert |Kinds(RunEvents(plan, scripts))| == |RunEvents(plan, scripts)|;
  }

  // The last event is the done, and says success exactly if every stage passed its gate.
  lemma LastSaysSuccess(plan: Plan, scripts: seq<Script>)
    requires |scripts| == |plan.stages|
    ensures var r := RunEvents(plan, scripts);
      r != [] && r[|r| - 1].kind == ExecutionDone
      && (r[|r| - 1].message == EXECUTION_SUCCESS <==> AllPass(plan.stages, scripts))
  {
    var n := PassedStages(plan.stages, scripts);
    if n < |plan.stages| {
      FailedIsErr(plan.stages[n], scripts[n]);
      assert !AllPass(plan.stages, scripts);
      var message := "failed: " + StageResult(plan.stages[n], scripts[n]).message;
      assert message[0] == 'f' && EXECUTION_SUCCESS[0] == 's';
    }
  }

  // ----- The run in the fields of its scripts -----

  // The driver's messages come to an end: the channel closes, or the budget is used up.
  predicate Ends(stage: Stage, script: Script) {
    script.ending.Closed? || (stage.tokenBudget > 0 && script.messages >= stage.tokenBudget)
  }

  predicate GoesThrough(stage: Stage, script: Script) {
    script.sandbox.Ok? && script.start.Ok? && script.send.Ok? && Ends(stage, script) && script.gate.Ok?
  }

  // The first thing that fails in a stage, whether that is its gate, and what is said of it.
  ghost predicate FailsWith(stage: Stage, script: Script, gated: bool, message: string) {
    if script.sandbox.Err? then !gated && message == "create sandbox: " + script.sandbox.message
    else if script.start.Err? then !gated && message == "start driver: " + script.start.message
    else if script.send.Err? then !gated && message == "send prompt: " + script.send.message
    else if !Ends(stage, script) then !gated && message == script.ending.message
    else script.gate.Err? && gated && message == "gate " + stage.gateName + ": " + script.gate.message
  }

  // r are the events of a run that n stages go through.
  ghost predicate IsRun(plan: Plan, scripts: seq<Script>, r: seq<Event>, n: nat)
    requires |scripts| == |plan.stages|
  {
    && n <= |scripts| && 3 * n < |r|
    && (forall i :: 0 <= i < n ==> GoesThrough(plan.stages[i], scripts[i]) && StageDone(plan, r, i))
    && if n == |scripts| then r[3 * n..] == [Event(plan.id, ExecutionDone, "", "success")]
       else exists gated, message ::
         && FailsWith(plan.stages[n], scripts[n], gated, message)
         && r[3 * n..] == FailedTail(plan, plan.stages[n].name, scripts[n], gated, message)
  }

  ghost predicate StageDone(plan: Plan, r: seq<Event>, i: nat)
    requires i < |plan.stages| && 3 * i + 2 < |r|
  {
    var name := plan.stages[i].name;
    && r[3 * i] == Event(plan.id, StageStarted, name, "")
    && r[3 * i + 1] == Event(plan.id, GatePassed, name, "")
    && r[3 * i + 2] == Event(plan.id, StageCompleted, name, "")
  }

  // What a failed stage sends, and the end of the run.
  ghost function FailedTail(plan: Plan, name: string, script: Script, gated: bool, message: string): seq<Event> {
    [Event(plan.id, StageStarted, name, "")]
    + (if gated && script.gate.Err? then [Event(plan.id, GateFailed, name, script.gate.message)] else [])
    + [Event(plan.id, StageFailed, name, message), Event(plan.id, ExecutionDone, "", "failed: " + message)]
  }

  lemma AllGoThrough(stages: seq<Stage>, scripts: seq<Script>)
    requires |scripts| == |stages|
    ensures AllPass(stages, scripts) <==> forall i :: 0 <= i < |scripts| ==> GoesThrough(stages[i], scripts[i])
  {
    forall i | 0 <= i < |scripts|
      ensures PassesGate(stages[i], scripts[i]) <==> GoesThrough(stages[i], scripts[i])
    {
      GoesThroughIff(stages[i], scripts[i]);
    }
  }

  lemma GoesThroughIff(stage: Stage, script: Script)
    ensures PassesGate(stage, script) <==> GoesThrough(stage, script)
    ensures StageResult(stage, script).Err? ==>
      FailsWith(stage, script, ReachesGate(stage, script), StageResult(stage, script).message)
  {
  }

  lemma {:induction false} StagesSay(plan: Plan, scripts: seq<Script>, n: nat)
    requires |scripts| == |plan.stages| && n <= PassedStages(plan.stages, scripts)
    ensures |StagesEvents(plan, scripts, n)| == 3 * n
    ensures forall i :: 0 <= i < n ==> StageDone(plan, StagesEvents(plan, scripts, n), i)
  {
    if n > 0 {
      StagesSay(plan, scripts, n - 1);
      var before, all := StagesEvents(plan, scripts, n - 1), StagesEvents(plan, scripts, n);
      forall i | 0 <= i < n
        ensures StageDone(plan, all, i)
      {
        if i < n - 1 {
          assert StageDone(plan, before, i);
        }
      }
    }
  }

  // A run, event by event: three for each stage that goes through, and then either the
  // success or what is said of the first stage that does not.
  lemma {:induction false} RunSays(plan: Plan, scripts: seq<Script>)
    requires |scripts| == |plan.stages|
    ensures IsRun(plan, scripts, RunEvents(plan, scripts), PassedStages(plan.stages, scripts))
  {
    var n, r := PassedStages(plan.stages, scripts), RunEvents(plan, scripts);
    StagesSay(plan, scripts, n);
    var before := StagesEvents(plan, scripts, n);
    forall i | 0 <= i < |scripts|
      ensures PassesGate(plan.stages[i], scripts[i]) <==> GoesThrough(plan.stages[i], scripts[i])
    {
      GoesThroughIff(plan.stages[i], scripts[i]);
    }
    if n < |scripts| {
      FailureSays(plan, scripts);
    }
    assert before <= r;
    forall i | 0 <= i < n
      ensures StageDone(plan, r, i)
    {
      assert StageDone(plan, before, i);
    }
  }

  lemma {:induction false} FailureSays(plan: Plan, scripts: seq<Script>)
    requires |scripts| == |plan.stages| && PassedStages(plan.stages, scripts) < |scripts|
    ensures
      var n := PassedStages(plan.stages, scripts);
      var stage, script := plan.stages[n], scripts[n];
      && StageResult(stage, script).Err?
      && FailsWith(stage, script, ReachesGate(stage, script), StageResult(stage, script).message)
      && RunEvents(plan, scripts) == StagesEvents(plan, scripts, n)
           + FailedTail(plan, stage.name, script, ReachesGate(stage, script), StageResult(stage, script).message)
  {
    var n := PassedStages(plan.stages, scripts);
    FailedIsErr(plan.stages[n], scripts[n]);
    GoesThroughIff(plan.stages[n], scripts[n]);
  }

  // In particular a stage that is interrupted sends no gate event.
  lemma {:induction false} InterruptedSays(plan: Plan, scripts: seq<Script>, n: nat, m: string)
    requires |scripts| == |plan.stages| && n < |scripts|
    requires forall i :: 0 <= i < n ==> GoesThrough(plan.stages[i], scripts[i])
    requires scripts[n].sandbox.Ok? && scripts[n].start.Ok? && scripts[n].send.Ok?
    requires scripts[n].ending == Interrupted(m)
    requires plan.stages[n].tokenBudget <= 0 || scripts[n].messages < plan.stages[n].tokenBudget
    ensures
      var r := RunEvents(plan, scripts);
      && |r| == 3 * n + 3 && r[3 * n] == Event(plan.id, StageStarted, plan.stages[n].name, "")
      && r[3 * n + 1] == Event(plan.id, StageFailed, plan.stages[n].name, m)
      && r[3 * n + 2] == Event(plan.id, ExecutionDone, "", "failed: " + m)
  {
    var k := PassedStages(plan.stages, scripts);
    RunSays(plan, scripts);
    forall i | 0 <= i < |scripts|
      ensures PassesGate(plan.stages[i], scripts[i]) <==> GoesThrough(plan.stages[i], scripts[i])
    {
      GoesThroughIff(plan.stages[i], scripts[i]);
    }
    assert k == n;
    FailureSays(plan, scripts);
    StagesSay(plan, scripts, n);
  }

  lemma EffectsExtend(before: seq<Effect>, scripts: seq<Script>, si: nat)
    requires si < |scripts|
    ensures before + RunEffects(scripts, si) + StageEffects(si, scripts[si]) == before + RunEffects(scripts, si + 1)
  {
  }

  // Whether x happens in its stage: the sandbox's creation and destruction, if it
  // was created, and the driver's start and stop, if it was started.
  predicate Happens(script: Script, x: Effect) {
    script.sandbox.Ok? && (script.start.Ok? || x.Created? || x.Destroyed?)
  }

  lemma CountStage(i: nat, script: Script, x: Effect)
    ensures multiset(StageEffects(i, script))[x] == if x.stage == i && Happens(script, x) then 1 else 0
  {
  }

  // In a run over the first n stages, every sandbox created is destroyed exactly
  // once, and every driver started is stopped exactly once.
  lemma {:induction false} EverythingTornDown(scripts: seq<Script>, n: nat, x: Effect)
    requires n <= |scripts|
    ensures multiset(RunEffects(scripts, n))[x] == if x.stage < n && Happens(scripts[x.stage], x) then 1 else 0
  {
    if n > 0 {
      EverythingTornDown(scripts, n - 1, x);
      CountStage(n - 1, scripts[n - 1], x);
    }
  }

  // A stage's setup and teardown are nested, and no two stages overlap.
  lemma {:induction false} StagesDoNotOverlap(scripts: seq<Script>, n: nat, j: nat, k: nat)
    requires n <= |scripts| && j < k < |RunEffects(scripts, n)|
    ensures RunEffects(scripts, n)[j].stage <= RunEffects(scripts, n)[k].stage < n
    ensures RunEffects(scripts, n)[j].stage == RunEffects(scripts, n)[k].stage ==>
            !RunEffects(scripts, n)[j].Destroyed? &&
              (RunEffects(scripts, n)[k].Started? ==> RunEffects(scripts, n)[j].Created?)
            && (RunEffects(scripts, n)[j].Stopped? ==> RunEffects(scripts, n)[k].Destroyed?)
  {
    var a := |RunEffects(scripts, n - 1)|;
    if k < a {
      StagesDoNotOverlap(scripts, n - 1, j, k);
    } else if j < a {
      EffectsOfEarlier(scripts, n - 1, j);
      EffectsOf(n - 1, scripts[n - 1], k - a);
    } else {
      StageIsNested(n - 1, scripts[n - 1], j - a, k - a);
    }
  }

  lemma EffectsOf(i: nat, script: Script, k: nat)
    requires k < |StageEffects(i, script)|
    ensures StageEffects(i, script)[k].stage == i
  {
  }

  lemma StageIsNested(i: nat, script: Script, j: nat, k: nat)
    requires j < k < |StageEffects(i, script)|
    ensures StageEffects(i, script)[j].stage == StageEffects(i, script)[k].stage == i
    ensures !StageEffects(i, script)[j].Destroyed?
    ensures StageEffects(i, script)[k].Started? ==> StageEffects(i, script)[j].Created?
    ensures StageEffects(i, script)[j].Stopped? ==> StageEffects(i, script)[k].Destroyed?
  {
  }

  lemma {:induction false} EffectsOfEarlier(scripts: seq<Script>, n: nat, j: nat)
    requires n <= |scripts| && j < |RunEffects(scripts, n)|
    ensures RunEffects(scripts, n)[j].stage < n
  {
    if j < |RunEffects(scripts, n - 1)| {
      EffectsOfEarlier(scripts, n - 1, j);
    }
  }

  // ----- The broker -----

  datatype Result = Result(success: bool, summary: string)

  class Broker {
    const orch: SimpleOrchestrator
    var running: set<string>
    var progress: seq<Event>

    constructor (orch: SimpleOrchestrator)
      ensures this.orch == orch && running == {} && progress == []
    {
      this.orch, running, progress := orch, {}, [];
    }

    // A registered intent's plan is executed, its events are relayed in order, and
    // it succeeds exactly if every stage passed its gate.
    method HandleIntent(plan: Plan, scripts: seq<Script>) returns (result: Result)
      requires |scripts| == |plan.stages|
      modifies this, orch
      ensures result.success <==> AllPass(plan.stages, scripts)
      ensures result.success <==>
        forall i :: 0 <= i < |scripts| ==>
          && scripts[i].sandbox.Ok? && scripts[i].start.Ok? && scripts[i].send.Ok? && scripts[i].gate.Ok?
          && (scripts[i].ending.Closed?
              || (plan.stages[i].tokenBudget > 0 && scripts[i].messages >= plan.stages[i].tokenBudget))
      ensures result.success ==> result.summary == "success"
      ensures !result.success ==>
        exists i, gated, message ::
          && 0 <= i < |scripts| && FailsWith(plan.stages[i], scripts[i], gated, message)
          && result.summary == "failed: " + message
      ensures running == old(running) - {plan.id}
      ensures progress == old(progress) + RunEvents(plan, scripts)
      ensures result.summary == progress[|progress| - 1].message
    {
      running := running + {plan.id};
      var ch := orch.Execute(plan, scripts);
      var lastEvent := Drain(ch);
      LastSaysSuccess(plan, scripts);
      RunSays(plan, scripts);
      AllGoThrough(plan.stages, scripts);
      var success := lastEvent.kind == ExecutionDone && lastEvent.message == EXECUTION_SUCCESS;
      running := running - {plan.id};
      result := Result(success, lastEvent.message);
    }

    // The receiving loop: each event is relayed to the operator as it comes.
    method Drain(ch: Channel) returns (lastEvent: Event)
      requires ch.closed
      modifies this`progress
      ensures progress == old(progress) + ch.sent
      ensures ch.sent != [] ==> lastEvent == ch.sent[|ch.sent| - 1]
    {
      lastEvent := Event("", StageStarted, "", "");
      var events := ch.sent;
      for k := 0 to |events|
        invariant progress == old(progress) + events[..k]
        invariant k > 0 ==> lastEvent == events[k - 1]
      {
        assert events[..k + 1] == events[..k] + [events[k]];
        progress := progress + [events[k]];
        lastEvent := events[k];
      }
      assert events[..|events|] == events;
    }
  }
}
