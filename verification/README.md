# Djinn, modelled and proved in Dafny

Djinn is an agent runtime. This project models the parts of it that are
algorithms and protocols rather than plumbing, each in the form the program
gives it: objects with the program's own fields and methods, proved against
specification functions, and lemmas about those functions. `dafny verify
dfyconfig.toml` verifies everything.

| files | what they model |
|---|---|
| `ImportCycles` | Tarjan's search for import cycles, as one object with its stack, indices and low links |
| `Artifacts`, `TopoOrder`, `KahnSteps`, `Cascades`, `ArtifactGraph` | the artifact graph: topological sort with a sorted frontier and a cycle tail, and the invalidation cascade |
| `Roles` | recursive role composition |
| `Circuits`, `EntryPoints`, `CircuitExtraction` | the depth-first circuit walker, entry points, extraction and shared stops |
| `HubProtocol`, `HubConservation`, `HubOrdering`, `HubDelivery`, `HubLifecycle`, `HubMachine` | the hot-swap relay hub: its protocol as a state machine of atomic steps, what every run keeps, and the hub's methods as runs of that protocol |
| `Transcript`, `ToolRepair`, `SessionHistory`, `SanitizeTheorems`, `HistoryTheorems` | session history, sanitizing and compaction, and the pairing of tool calls with results |
| `BudgetSignals`, `SignalBuses` | the signal bus and the budget watchdogs that re-enter it |
| `TraceRing` | the trace ring buffer and its archive |
| `StageRuns` | the stage orchestrator and the broker's success decision |
| `ContextRelay` | the context monitor and the relay that spawns and swaps sessions |
| `Caches`, `SharedCaches` | the in-memory cache, the write-through wrapper, and several of them over one shared level |
| `Cordons`, `Formations` | path scopes, cordons, scope disjointness, budget division, instantiation |
| `TextWrap` | wrapping text at word boundaries |
| `Digraphs`, `Sorting`, `Selections`, `Arithmetic`, `Wrappers` | paths and reachability, sorting, picking positions in order, remainders, optional values: shared by the others |

How the program's terms appear in the model:

- Strings are byte sequences, except that the entry keyword search works on code
  points, because lowering changes whole letters: the Kelvin sign becomes k, and a
  capital I with a dot becomes i. Package and artifact ids matter only through
  their order, so an `Id` is its rank in that order. Iterating over a map is
  choosing keys in an arbitrary order.
- Integers are unbounded; division truncates towards zero where the program's
  operands can be negative.
- A step of the hub is one receive, one peer read under the read lock, one send,
  or one section under the write lock. A registration that drains a queue holds
  the write lock over several steps, because other relays can send meanwhile.
  Sends and receives succeed or fail by free choice, and the context that the hub
  runs in can end at any time. A run is any sequence of enabled steps. `RelayHub`
  carries the hub's fields and methods; each method, run without interruption, is
  proved to be a run of those steps.

- What sandboxes, drivers, gates and the clock answer in a stage is given by a
  `Script`, and what the driver factory answers in a relay by a `Spawn`; both
  are arbitrary. A `Race` holds the turns that other goroutines record while
  the relay holds its lock; since recording only moves Idle to Spawning and
  Ready to Swapping, the two points where it is consulted cover all others.
- The watchdog's 80 % threshold is any value between zero and the budget
  (for a negative budget, any that is not positive), and the relay's two
  thresholds are any reals.
- The id "trace-n" is the number n, and a timestamp is a number with 0 as the
  zero time; the clock never reads 0.

Where the code and its own comments disagree, the model follows the code:

- Sanitize is said to put a result for every tool call in the immediately
  following message (cortex/sanitize.go:46-48). It does if and only if no entry
  that is kept is answered only in part by its successor; otherwise the real results
  move one entry further (`RepairedAnsweredNextIffAllOrNone`, `SanitizeSettlesIff`,
  `PartialAnswerIsPushed`). Such an entry stays answered in part, so every further
  Sanitize repairs the history again and makes it longer, until compaction drops the
  entry (`RepairNeverSettles`, `SanitizedAllOrNoneIff`, `SanitizeNeverSettles`).
- Entry keywords are said to match by word boundaries (review/circuit.go:135-137).
  Only the first occurrence is looked at: a whole word is missed if and only if the
  first occurrence is no whole word and a later one is (`WordMissedIff`, `HiddenWord`).
- Resolve is said to return nil for unknown roles (uniform/capability.go:62). It
  returns an empty list for them, and composing an unknown role adds nothing.
- The shares of a budget are within the total, in tokens and in wall-clock time, if
  and only if that total is not negative or divides evenly (`SharesWithinTotalIff`);
  two units that share -1 get 0 each (`SharesExceedNegativeTotal`).
- The hub is a relay that queues while a side is away (hotswap/hub.go:4-6), but
  messages of one connection can overtake each other. They stay in order if and only
  if no relay ever sends directly while a message of its own is still queued
  (`StepKeepsLineIff`, `InOrderIffNeverOvertakes`). That is so if a connection on which
  a send failed takes no more and no registration falls between a peer read and the
  enqueue after a failed send (`DeliveredInOrder`). The first assumption alone is not
  enough (`RegistrationBetweenReorders`), nor is the second (`RecoveredSendReorders`).
  The first is met as far as the transport goes: once closed it stays closed
  (hotswap/socket.go:106), and its encoder keeps a write error. A send that recovers
  is a choice the model leaves open, so the run of `RecoveredSendReorders` is one of
  the model; the run of `RegistrationBetweenReorders` needs no such send.
- A write-through cache returns L1's entry even if another agent has since written
  the shared level. Whatever all agents did, a read is right if and only if L1 holds
  nothing there or the writes since it took its entry left the same data last
  (`ReadIsRightIff`, `ForeignWriteGoesStale`). If every agent both writes and reads
  only scopes of its own, nothing goes stale; a foreign read alone can promote an
  entry that the owner's next write makes stale.
- A changed artifact that lies on a cycle through another artifact is reported,
  and may be invalidated, by its own cascade (`DependsOnSelfVia` in `Cascades`); two
  artifacts that list each other are an example (`MutualDependencyIsAffected`).
- `Exceeded` needs at least one budget signal, so for a budget that is not
  positive it differs from comparing the count with the budget
  (`ZeroBudgetNotExceeded`).
- Wrapping drops empty lines at the start of what it writes. It drops none if and only
  if the text does not start with a newline, nor, at width 1, with a space before a
  character that is neither a space nor a newline (`NothingDroppedIff`,
  `LeadingLineDropped`).

## Model

| member | source | states |
|---|---|---|
| ImportCycles.FindCycles | tools/arch.go:128-202 | for every import graph: the result lists cyclic components only, each sorted and whole, pairwise disjoint, none missing, none twice, and none before one that it reaches; its order is that of the search from the sorted nodes |
| ImportCycles.CycleSearch.constructor | tools/arch.go:129-137 | an empty search satisfies the search invariant |
| ImportCycles.CycleSearch.StrongConnect | tools/arch.go:140-187 | terminates on cyclic graphs; afterwards the node is visited, older nodes keep index and low link, and either its component is reported and popped or it stays stacked with a low link to an older stacked node it reaches; the new state is a function of the old one |
| ImportCycles.CycleSearch.Push | tools/arch.go:141-146 | the node starts as the only node of its own exploration, reached by every node whose call is still open |
| ImportCycles.CycleSearch.Follow | tools/arch.go:148-159 | following one import, seen or new, keeps the low link anchored at a reachable stacked node and below every import followed so far |
| ImportCycles.CycleSearch.FollowNew | tools/arch.go:149-153 | the same for an import not visited yet, through the recursive call |
| ImportCycles.CycleSearch.Lower | tools/arch.go:151-157 | only the low link of this node changes, and only downwards |
| ImportCycles.CycleSearch.PopComponent | tools/arch.go:161-186 | at a root, what is popped is the root's whole component, and the report stays exact |
| ImportCycles.CycleSearch.PopThrough | tools/arch.go:163-172 | pops exactly the part of the stack from the node upwards, each node once |
| ImportCycles.CycleSearch.ReportComponent | tools/arch.go:173-185 | reports a component of several nodes sorted, a single node only if it imports itself |
| ImportCycles.SortedKeys | tools/arch.go:190-194 | the ascending listing of the keys, in whatever order the map yields them |
| ImportCycles.TopIsComponent | tools/arch.go:161-172 | the stack from a node that nothing above it escapes from is that node's strongly connected component |
| ImportCycles.StaysStacked | tools/arch.go:148-162 | a node whose low link is below its index reaches an older open node, so nothing of its component is complete |
| ImportCycles.RootPopped | tools/arch.go:161-186 | popping and reporting a root's component keeps the whole search invariant |
| ImportCycles.NewReportIsReport | tools/arch.go:173-185 | adding a finished component keeps the report exact; nothing is added exactly if its nodes are on no cycle |
| ImportCycles.ReportIsExact | tools/arch.go:126-202 | a list is in the report if and only if it is the sorted listing of a strongly connected component with a cycle, and it occurs once |
| ImportCycles.EmptyReportIffAcyclic | tools/arch.go:126-202 | the report is empty if and only if no node reaches itself |
| ImportCycles.ReportIsUnique | tools/arch.go:189-199 | two such results for the same graph are equal, order included: no map iteration order shows |
| ArtifactGraph.Graph.TopoSort | artifact/graph.go:443-503 | every artifact once; those that reach a dependency cycle last, in ascending order; every other one after all its known dependencies, and these in the lexicographically least such order: stated of the result and the items alone, which they determine |
| ArtifactGraph.Graph.KahnPhase | artifact/graph.go:470-482 | emits the ids of the Kahn order, which respect dependencies |
| ArtifactGraph.Graph.EmitNext | artifact/graph.go:471-481 | one turn emits the least id of the frontier and leaves in-degrees and sorted queue exact |
| ArtifactGraph.Graph.ReleaseDependents | artifact/graph.go:475-481 | after the dependents are released the queue is the sorted frontier, duplicates in DependsOn included |
| ArtifactGraph.Graph.Remaining | artifact/graph.go:485-496 | the ascending listing of exactly the artifacts not emitted |
| ArtifactGraph.Graph.AppendArtifacts | artifact/graph.go:497-499 | appends the artifacts of the remaining ids in their order |
| ArtifactGraph.InitialFrontier | artifact/graph.go:462-467 | the artifacts without known dependencies, each once |
| ArtifactGraph.SortQueue | artifact/graph.go:468-481 | a strictly ascending listing of the same ids |
| KahnSteps.CountDependencies | artifact/graph.go:447-460 | in-degrees count the entries of DependsOn with multiplicity; the dependents lists are their exact inverse, with multiplicity |
| KahnSteps.CountArtifact | artifact/graph.go:450-459 | the same for one artifact added to those read |
| KahnSteps.Release | artifact/graph.go:475-480 | lowers each degree by the times the artifact is listed and appends exactly those that reach zero, once |
| KahnSteps.EmitLowersDegrees | artifact/graph.go:475-480 | emitting an id turns exact degrees for the old emitted set into exact degrees for the new one, and the freed dependents complete the new frontier |
| TopoOrder.OrderIsPermutation | artifact/graph.go:439-503 | every artifact occurs exactly once |
| TopoOrder.KahnRespectsDeps | artifact/graph.go:470-482 | each artifact of the Kahn phase comes after all its known dependencies, and the phase stops only at an empty frontier |
| TopoOrder.EmittedOffCycles | artifact/graph.go:470-482 | no order that respects dependencies contains an artifact on a DependsOn cycle |
| TopoOrder.TailReachesCycle | artifact/graph.go:484-500 | an artifact is left to the tail if and only if it reaches a DependsOn cycle |
| TopoOrder.KahnAt | artifact/graph.go:472-481 | every emitted id is the least of the frontier at its turn |
| TopoOrder.KahnIsLeast | artifact/graph.go:462-482 | among all orders of the emitted artifacts that respect dependencies it is the lexicographically least |
| TopoOrder.OrderIsTopoOrder | artifact/graph.go:439-503 | the whole order, cycle tail included, has these properties |
| TopoOrder.TopoOrderIsUnique | artifact/graph.go:439-503 | and no other order has them: no map iteration order shows |
| ArtifactGraph.Graph.Cascade | artifact/graph.go:283-304 | the ids reported, ascending and once each, are exactly those of the artifacts with a chain of dependencies to the changed one (for itself, through another one) or a file in common with it; of these exactly the ready, claimed and in-progress ones become invalidated, the changed one gets a version, nothing else changes |
| ArtifactGraph.Graph.CascadeDeps | artifact/graph.go:306-324 | terminates on cyclic graphs; adds transitive dependents only, and every direct dependent of the argument and of whatever it added |
| ArtifactGraph.Graph.CascadeArtifact | artifact/graph.go:308-322 | one artifact: marked if it depends on the argument |
| ArtifactGraph.Graph.Mark | artifact/graph.go:312-321 | marks, invalidates and recurses, keeping what is affected sound and propagated |
| ArtifactGraph.Graph.InvalidateOne | artifact/graph.go:314-318 | invalidates this artifact only, and only from the three active states |
| ArtifactGraph.Graph.CascadeOverlaps | artifact/graph.go:326-349 | adds exactly the other artifacts that share a file with the changed one |
| ArtifactGraph.SortedListing | artifact/graph.go:298-303 | the ascending listing of the affected set |
| ArtifactGraph.AffectedIsReported | artifact/graph.go:283-349 | affected means: a chain of dependencies, or a file in common |
| ArtifactGraph.AffectedIsMarked | artifact/graph.go:287-318 | invalidating the affected ones changes exactly the three active statuses, and one version |
| Cascades.PropagatedIsComplete | artifact/graph.go:306-324 | a set that contains the direct dependents of its members and of the root contains all transitive dependents |
| Cascades.DependencyIsSound | artifact/graph.go:311-313 | a dependency on the changed or an affected artifact makes a transitive dependent |
| Cascades.MutualDependencyIsAffected | artifact/graph.go:306-324 | an artifact that another one lists and that lists it is affected by its own change |
| Roles.RoleRegistry.constructor | uniform/capability.go:52-58 | every defined name is known, with its last definition |
| Roles.RoleRegistry.ResolveInto | uniform/capability.go:75-95 | terminates on cyclic composition; visits reachable roles only, closed under composition, and collects exactly their own capabilities |
| Roles.RoleRegistry.Resolve | uniform/capability.go:63-73 | exactly the capabilities of all known roles reachable through Composes, each once |
| Roles.RoleRegistry.ResolvePersona | uniform/capability.go:99-111 | the union of what the separate roles grant, although one seen set is shared |
| Roles.Listing | uniform/capability.go:68-72 | the elements of the set, each once |
| Roles.VisitsAreReach | uniform/capability.go:75-95 | from a closed seen set a call adds exactly the roles reachable from the name |
| Roles.GrantsUnfold | uniform/capability.go:60-95 | a role grants its own capabilities and what the roles it composes grant, also on cycles |
| Circuits.BuildAdjacency | review/walker.go:14-18 | each node's targets are those of its dependencies, picked from the dependency list in its order |
| Circuits.Walker.constructor | review/walker.go:20-21 | nothing listed yet |
| Circuits.Walker.Dfs | review/walker.go:23-42 | terminates on cycles, lists the node if it is new, keeps depth-first order, and leaves everything it listed finished |
| Circuits.Walker.List | review/walker.go:28-37 | one stop more, described from its node and the changed set |
| Circuits.Walker.FollowTargets | review/walker.go:39-41 | after the loop the stop and everything listed since is finished |
| Circuits.Walker.Descend | review/walker.go:39-41 | one target: visited afterwards, depth-first order kept |
| Circuits.SplitNode | review/walker.go:48-56 | the last dot separates package and name; without a dot the package is empty |
| Circuits.WalkCircuit | review/walker.go:12-46 | the stops are the depth-first walk from the entry, each flagged changed or pass-through by the changed set |
| Circuits.WalkIsReach | review/walker.go:12-46 | a walk lists exactly the nodes reachable from the entry |
| Circuits.ListedHasParent | review/walker.go:39-41 | every later stop has an edge from an earlier one |
| Circuits.PreorderDistinct | review/walker.go:24-28 | no node is listed twice |
| Circuits.DepthFirst | review/walker.go:23-42 | between a stop and a later target of it, every stop has an edge from that stop or from one listed after it |
| Circuits.TargetsInOrder | review/walker.go:39-41 | the stop right after another one is its first target not listed before, if there is one |
| Circuits.WalkIsUnique | review/walker.go:13-46 | the depth-first order is determined by the graph: there is one walk |
| Circuits.StopSays | review/walker.go:28-37 | a stop is flagged changed if its node is in the changed set and pass-through otherwise; package and name are what the last dot separates |
| EntryPoints.ToLower | review/circuit.go:139 | each letter becomes its lower case; of the letters beyond ASCII only the Kelvin sign and the dotted capital I become ASCII ones |
| EntryPoints.IndexFrom | review/circuit.go:140 | the first occurrence, or -1 if there is none |
| EntryPoints.MatchIff | review/circuit.go:138-160 | a name matches if and only if the keyword is in its lower case and no letter or digit is next to it on either side where it occurs first |
| EntryPoints.WordMissedIff | review/circuit.go:135-160 | a whole word of a name is missed if and only if its first occurrence in the name is no whole word and a later one is; what is matched is a whole word |
| EntryPoints.HiddenWord | review/circuit.go:135-160 | so a later whole word is missed: "rapi.api" does not match "api" |
| EntryPoints.KeywordKinds | review/circuit.go:36-50 | the keywords and their kinds, in order |
| EntryPoints.LastPackage | review/circuit.go:57-61 | the package of a source node is that of its last dependency |
| EntryPoints.FirstKind | review/circuit.go:67-77 | the kind of the first keyword that the node or its package matches; none if and only if no keyword does |
| EntryPoints.FromNodes | review/circuit.go:57-61 | each source node with the package of its last dependency |
| EntryPoints.DetectEntryPoints | review/circuit.go:52-80 | every source node that matches, once, with its package and kind, and no other |
| CircuitExtraction.IndexStops | review/circuit.go:119-124 | for each stop id the ascending list of the circuits it lies on |
| CircuitExtraction.SeveralIffOther | review/circuit.go:127-128 | more than one index means that another circuit contains the stop |
| CircuitExtraction.SharedStops | review/circuit.go:126-131 | the stops shared with another circuit, in order |
| CircuitExtraction.MarkSharedStops | review/circuit.go:118-133 | appends to each circuit its shared stops and changes nothing else |
| CircuitExtraction.SharedIffOther | review/circuit.go:125-132 | a stop is marked if and only if some other kept circuit contains it |
| CircuitExtraction.HasChangedStop | review/circuit.go:109-116 | true if and only if some stop is changed |
| CircuitExtraction.ChangedStopIffReaches | review/circuit.go:92-96 | a walk has a changed stop if and only if its entry reaches changed code |
| CircuitExtraction.KeepChanged | review/circuit.go:85-102 | exactly the entries that reach changed code keep their circuit |
| CircuitExtraction.ExtractCircuits | review/circuit.go:82-107 | the result is an extraction: one circuit for each detected entry point that reaches changed code, its unique walk, with exactly the shared stops marked; no other circuits |
| CircuitExtraction.ExtractionSays | review/circuit.go:82-133 | each circuit starts at its entry point, is titled by the first keyword that the entry point or its package matches, has a changed stop, flags exactly the changed ones, and lists as shared, in order, exactly its stops that another circuit has |
| CircuitExtraction.NoneMissing | review/circuit.go:82-107 | a source node that matches a keyword, by name or package, and from which changed code can be reached, has its circuit |
| CircuitExtraction.CircuitIsUnique | review/circuit.go:82-107 | two circuits justified for the same entry point have the same name, kind and stops |
| CircuitExtraction.ExtractionIsUnique | review/circuit.go:82-133 | two extractions for the same input hold the same circuits, shared stops included, each as often: the result is determined up to order |
| HubConservation.CheckContextKeeps | hotswap/hub.go:198-202 | checking the context keeps every message in its one place |
| HubConservation.ReceiveKeeps | hotswap/hub.go:203-203 | a message read is new, and in the relay's hand only |
| HubConservation.ReceiveErrorKeeps | hotswap/hub.go:203-204 | a failed receive moves nothing |
| HubConservation.ClearSlotKeeps | hotswap/hub.go:204-211 | clearing the slot moves nothing |
| HubConservation.ReadPeerKeeps | hotswap/hub.go:214-218 | reading the peer keeps the message in hand |
| HubConservation.SendOkKeeps | hotswap/hub.go:218-219 | a successful send moves the message from the hand to the end of one wire |
| HubConservation.SendFailKeeps | hotswap/hub.go:219-220 | a failed send keeps it in hand |
| HubConservation.EnqueueKeeps | hotswap/hub.go:220-229 | queueing moves it to the end of the queue |
| HubConservation.RegisterKeeps | hotswap/hub.go:145-157 | taking over a slot moves nothing |
| HubConservation.DrainSendKeeps | hotswap/hub.go:159-163 | draining moves the head of the queue to the new wire, or loses it |
| HubConservation.EndRegisterKeeps | hotswap/hub.go:163-168 | ending a registration moves nothing |
| HubConservation.CloseKeeps | hotswap/hub.go:113-130 | shutting down moves nothing |
| HubConservation.EndContextKeeps | hotswap/hub.go:53-56 | the end of the context moves nothing |
| HubConservation.SwapKeeps | hotswap/swap.go:40-50 | a backend swap moves nothing |
| HubConservation.StepKeepsInv | hotswap/hub.go:114-270 | every enabled step of every relay, registration, swap, shutdown or end of the context keeps the protocol's invariant |
| HubConservation.RunKeepsInv | hotswap/hub.go:114-270 | so does every run |
| HubConservation.EveryMessageInOnePlace | hotswap/hub.go:145-270 | under every interleaving a message that was read is in exactly one place (hand, one wire, queue, or lost in a failed drain), and no other message is anywhere |
| HubOrdering.StepKeepsSlotsCurrent | hotswap/hub.go:145-195 | a slot is empty or names the most recently registered connection of its side, after every step |
| HubOrdering.RunKeepsSlotsCurrent | hotswap/hub.go:145-231 | the same over every run, without assumptions |
| HubOrdering.StaleRelayClearsNothing | hotswap/hub.go:204-211 | under every interleaving, a relay whose connection is no longer the latest of its side clears no slot |
| HubOrdering.StepKeepsLineIff | hotswap/hub.go:145-231 | a step keeps what was written and queued for both sides in order if and only if it is not a direct send by a relay with a message of its own in the queue |
| HubOrdering.InOrderIffNeverOvertakes | hotswap/hub.go:145-231 | under every interleaving the messages are in order in every state if and only if no such send ever happens; then they reach the other side in the order read, on each wire and over all of them |
| HubDelivery.StepKeepsQueueJustified | hotswap/hub.go:198-231 | messages queue up only for a side that cannot be reached, and a relay with a queued message can only fail to send directly |
| HubDelivery.StepKeepsJustified | hotswap/hub.go:171-231 | if send failure is permanent and no registration falls between a peer read and its enqueue, every step keeps that |
| HubDelivery.OrderlyRunNeverOvertakes | hotswap/hub.go:171-231 | in a run under both assumptions no relay sends directly while a message of its own is queued |
| HubDelivery.DeliveredInOrder | hotswap/hub.go:171-231 | so under both assumptions messages of one connection reach the other side in the order read, on each wire and over all of them, queued ones before direct ones |
| HubDelivery.RegistrationBetweenReorders | hotswap/hub.go:214-224 | the second assumption cannot be dropped: a run in which send failure is permanent and message 1 overtakes message 0 |
| HubDelivery.RecoveredSendReorders | hotswap/hub.go:214-224 | nor can the first: a run of the model in which no registration falls between, a send succeeds on a connection where one failed, and message 1 overtakes message 0 |
| HubLifecycle.OneLivePerSide | hotswap/hub.go:145-211 | under every interleaving each side has at most one open connection whose relay runs, the one in its slot; a relay that stopped without being cancelled has left the slot |
| HubLifecycle.EndingRelayStops | hotswap/hub.go:198-203 | whatever else runs, a relay whose context is done reads at most the message it is waiting for |
| HubLifecycle.ShutdownStopsAll | hotswap/hub.go:113-130 | so after a shutdown or the end of the context every relay reads at most one more message, and a shutdown leaves no open connection with a relay |
| HubLifecycle.RegisterReplaces | hotswap/hub.go:149-157 | a registration takes the slot; the connection there before is closed and its relay cancelled; the queue and the other side stay |
| HubLifecycle.SwappedQueues | hotswap/swap.go:40-50 | over every run after a swap in which no backend registers, a message read for the backend is queued and not sent |
| HubLifecycle.DisconnectedQueues | hotswap/hub.go:204-231 | the same after a relay has left its slot |
| HubLifecycle.ReadsThePeer | hotswap/hub.go:214-219 | a message for a side with a connection in its slot is sent to that connection, which is one of the other side |
| HubMachine.RelayHub.constructor | hotswap/hub.go:40-49 | an empty hub |
| HubMachine.RelayHub.CancelRelay | hotswap/hub.go:150-152 | cancels that relay, if there is one, and nothing else |
| HubMachine.RelayHub.CloseConn | hotswap/hub.go:153-155 | closes that connection, if there is one, and nothing else |
| HubMachine.RelayHub.Register | hotswap/hub.go:145-195 | uninterrupted, it is a run of the protocol: register, one drain send per queued message in order, start the relay |
| HubMachine.RelayHub.Install | hotswap/hub.go:149-157 | the register step: the predecessor is cancelled and closed, the new connection takes the slot |
| HubMachine.RelayHub.DrainAll | hotswap/hub.go:159-163 | one drain send per queued message, in order, and nothing is left |
| HubMachine.RelayHub.DrainStep | hotswap/hub.go:160-162 | one queued message is written to the new connection, or lost if that fails; no other field changes |
| HubMachine.RelayHub.DrainNext | hotswap/hub.go:160-162 | one drain send, by its outcome |
| HubMachine.RelayHub.Finish | hotswap/hub.go:163-168 | the end of the registration: the queue is gone, the relay starts |
| HubMachine.RelayHub.RegisterShell | hotswap/hub.go:145-169 | the registration of a shell |
| HubMachine.RelayHub.RegisterBackend | hotswap/hub.go:171-195 | the registration of a backend |
| HubMachine.RelayHub.Swap | hotswap/swap.go:40-50 | the swap step: the backend's slot holds no connection and no relay, the connection it held is closed and its relay cancelled; every other field and connection is unchanged |
| HubMachine.RelayHub.Close | hotswap/hub.go:113-130 | the shutdown step: both relays are cancelled, both connections closed, nothing else changes |
| HubMachine.RelayHub.EndContext | hotswap/hub.go:53-56 | the end of the context, which every relay sees at its next turn |
| HubMachine.RelayHub.RelayTurn | hotswap/hub.go:198-270 | one turn of either relay loop is the protocol's run for its outcomes |
| HubMachine.RelayHub.GiveUp | hotswap/hub.go:203-212 | a failed receive: the slot is cleared only if this connection still holds it |
| HubMachine.RelayHub.TakeNext | hotswap/hub.go:203-203 | the receive step |
| HubMachine.RelayHub.PassOn | hotswap/hub.go:214-229 | peer read, then send or queue |
| HubMachine.RelayHub.LookUpPeer | hotswap/hub.go:214-218 | the peer read: the peer of the other side, if any, is what the message is sent to |
| HubMachine.RelayHub.Deliver | hotswap/hub.go:218-224 | a direct send, and the queueing of what it could not deliver |
| HubMachine.RelayHub.Disconnect | hotswap/hub.go:206-211 | the clear step |
| HubMachine.RelayHub.SendOrFail | hotswap/hub.go:219-219 | the send step, by its outcome |
| HubMachine.RelayHub.QueueFor | hotswap/hub.go:221-228 | the enqueue step |
| SessionHistory.EstimateTokens | cortex/history.go:82-92 | one token for a text of less than four bytes, else a quarter of its length, rounded down |
| SessionHistory.History.constructor | cortex/history.go:17-19 | an empty history with its budget |
| SessionHistory.History.TotalTokens | cortex/history.go:44-50 | the sum of the token counts |
| SessionHistory.History.Append | cortex/history.go:23-29 | appends the entry, counted if it was not, and trims |
| HistoryTheorems.AppendedSays | cortex/history.go:23-29 | the entry is added, its tokens counted; entries go from the front, none without a budget, otherwise until the total fits or only the new one is left, and no more |
| HistoryTheorems.TotalAdds | cortex/history.go:44-50 | the total is the sum of the token counts |
| HistoryTheorems.TextsConcat | cortex/session.go:22-28 | the text of an entry is its content or, if it has blocks, the texts of its text blocks in order |
| SessionHistory.History.TrimIfNeeded | cortex/history.go:72-80 | leaves what `Trimmed` gives |
| SessionHistory.TrimmedIsLongestFit | cortex/history.go:72-80 | trimming leaves the longest suffix within budget, or the last entry alone, never nothing |
| SessionHistory.History.Clear | cortex/history.go:53-55 | no entries are left |
| SessionHistory.History.SetEntries | cortex/history.go:58-60 | the entries are replaced |
| SessionHistory.History.AppendAll | cortex/compact.go:48-50 | appends one by one, trimming each time |
| SessionHistory.FirstLine | cortex/compact.go:28-31 | the text up to its first newline |
| SessionHistory.Summarize | cortex/compact.go:26-39 | one line per old entry with text, abridged to 60 bytes |
| SessionHistory.Compact | cortex/compact.go:13-53 | a short history is left alone; otherwise the summary of the earlier entries and the recent ones are appended to an empty one, which leaves what `CompactedSays` describes; both counts are returned |
| HistoryTheorems.CompactedSays | cortex/compact.go:13-53 | without a budget the last keepRecent entries are left, tokens counted, after one user entry exactly if an earlier entry has a first line: "[Compacted history]" and, in order, one line for each of those: its role, and its first line cut to 60 bytes |
| HistoryTheorems.CompactedWithinBudget | cortex/compact.go:41-50 | with a budget a suffix of that is left, never an empty one |
| HistoryTheorems.PartsAreSummary | cortex/compact.go:26-39 | the lines of a summary are those of the entries with a first line, in their order |
| HistoryTheorems.JoinIsListing | cortex/compact.go:41-47 | the summary text is its title and then these lines, nothing else |
| SessionHistory.SeedSession | cortex/compact.go:55-92 | a fresh unlimited history with the summary, if any, and the recent entries |
| HistoryTheorems.SeedSays | cortex/compact.go:55-92 | the seed is the summary under "[Session context]", if there is one, and then the recent entries, tokens counted; all entries if there are no more or none is asked for |
| SessionHistory.ExtractSummaryText | cortex/compact.go:94-107 | the text that `SummaryText` gives |
| SessionHistory.SummaryIsLongestFit | cortex/compact.go:94-107 | the summary text is made of whole lines, of as many leading entries as fit |
| HistoryTheorems.SummarySays | cortex/compact.go:94-107 | line by line: role, ": " and text of the leading entries, as many as fit |
| SessionHistory.FixBlocks | cortex/sanitize.go:35-43 | missing and null inputs become {}, other blocks stay |
| SessionHistory.FixInputs | cortex/sanitize.go:34-44 | the same for all entries, reporting exactly whether there was one |
| SessionHistory.CollectCalls | cortex/sanitize.go:73-79 | the ids the entry calls, in order |
| SessionHistory.CollectResults | cortex/sanitize.go:85-93 | the ids the entry has results for |
| SessionHistory.OrphanBlocks | cortex/sanitize.go:95-108 | a synthetic error result for each id not answered, in order |
| SessionHistory.InjectAfter | cortex/sanitize.go:73-115 | the entry injected after this one, if any |
| SessionHistory.RepairOrphanedToolUse | cortex/sanitize.go:65-119 | the repaired history |
| SessionHistory.Session.Sanitize | cortex/sanitize.go:24-63 | the history that input repair, orphan repair and compaction leave, and whether any of them changed something; nothing without a history |
| HistoryTheorems.SanitizedSays | cortex/sanitize.go:24-63 | afterwards at most 200 entries are left, every call has an input, and every call has a result in one of the next two entries; compaction to four entries comes last, and only beyond 200 |
| HistoryTheorems.FixedSays | cortex/sanitize.go:34-44 | each call whose input is missing or null gets {}, and nothing else changes |
| HistoryTheorems.InjectedSays | cortex/sanitize.go:73-115 | after an entry a user entry is injected if and only if one of its calls is not answered next: an error result for each of these, in order, that says the session was interrupted |
| HistoryTheorems.CallsSay | cortex/sanitize.go:73-79 | the ids an entry calls are those of its tool_use blocks, in order |
| HistoryTheorems.ReportSays | cortex/sanitize.go:24-63 | a repair is reported if and only if an input is missing or null, a call is not answered next, or the repaired history is too long to load |
| ToolRepair.InjectedAnswers | cortex/sanitize.go:95-115 | an injected entry calls nothing and answers exactly the ids its predecessor's successor does not |
| ToolRepair.NothingInjectedIffAllAnswered | cortex/sanitize.go:110-115 | nothing is injected if and only if every call is answered next |
| ToolRepair.RepairKeepsEntries | cortex/sanitize.go:65-119 | the original entries keep their order, with at most one entry injected after each |
| ToolRepair.EveryEntryPlaced | cortex/sanitize.go:65-119 | the repaired history holds nothing else |
| ToolRepair.RepairedAnsweredWithinTwo | cortex/sanitize.go:46-119 | every tool call is answered within the next two entries |
| ToolRepair.RepairedAnsweredNextIffAllOrNone | cortex/sanitize.go:46-52 | all answers are in the very next entry if and only if no original entry was answered only in part by its successor |
| ToolRepair.PlacedAnsweredNextIff | cortex/sanitize.go:65-119 | the answers of one entry are in the very next entry of the repaired history if and only if its calls were not answered only in part |
| ToolRepair.RepairedAnsweredOnwardIff | cortex/sanitize.go:65-119 | the same for all entries from any position of the repaired history on |
| ToolRepair.SilentIffAnsweredNext | cortex/sanitize.go:49-52 | a repair changes nothing if and only if every call is answered next |
| ToolRepair.SecondRepairSilentIffAllOrNone | cortex/sanitize.go:49-52 | a second repair finds nothing if and only if no original entry was answered in part |
| ToolRepair.PartlyAnsweredStays | cortex/sanitize.go:65-119 | an entry answered in part is answered in part again after the repair |
| ToolRepair.RepairNeverSettles | cortex/sanitize.go:49-52 | a history with such an entry never settles: each repair makes it longer and leaves such an entry |
| SanitizeTheorems.AppendedIsSuffix | cortex/compact.go:41-50 | re-appending leaves a suffix of the entries with their tokens counted, never an empty one, and all of them without a budget |
| SanitizeTheorems.AppendedIsLongestFit | cortex/compact.go:41-50 | unless a count is negative, re-appending one by one leaves what trimming once at the end would: the longest suffix within budget |
| SanitizeTheorems.KeptPositionIsLongestFit | cortex/compact.go:13-53 | where the kept part of a compacted history begins, in closed form, unless a count is negative |
| SanitizeTheorems.CompactedStaysAnswered | cortex/compact.go:13-53 | compaction keeps every answer of what it keeps, and at most the recent entries and a summary |
| SanitizeTheorems.SeedStaysAnswered | cortex/compact.go:55-92 | a seeded session keeps the answers of the entries it copies, and copies them all |
| SanitizeTheorems.SanitizedClean | cortex/sanitize.go:34-44 | no corrupt input is left |
| SanitizeTheorems.SanitizedAnsweredWithinTwo | cortex/sanitize.go:24-63 | a sanitized session answers every call within two entries and is of loadable size, compacted or not |
| SanitizeTheorems.CompactedAnsweredIff | cortex/compact.go:13-53 | a compacted history is answered, and has nothing answered in part, if and only if that is so of the history it comes from, from the first kept entry on; without a budget that is the first recent one |
| SanitizeTheorems.SanitizeSettlesIff | cortex/sanitize.go:24-63 | compacted or not, the answers are next, and a second Sanitize reports nothing, if and only if no entry that was kept was answered only in part; without compaction, if and only if no entry was |
| SanitizeTheorems.SanitizedAllOrNoneIff | cortex/sanitize.go:24-63 | a sanitized history has nothing answered in part if and only if no entry that was kept was answered in part |
| SanitizeTheorems.SanitizeNeverSettles | cortex/sanitize.go:24-63 | without compaction, a history with a partly answered entry is longer after Sanitize and still has one |
| SanitizeTheorems.SanitizeSettles | cortex/sanitize.go:24-63 | in particular without partly answered entries: then the answers are next and a second Sanitize reports nothing |
| SanitizeTheorems.ReportsIffUnanswered | cortex/sanitize.go:24-63 | of a history of loadable size, a repair is reported if and only if an input is corrupt or a call is not answered next |
| SanitizeTheorems.PartialAnswerIsPushed | cortex/sanitize.go:46-52 | a concrete history whose answers are not next after the repair |
| SignalBuses.SignalBus.constructor | telemetry/sig_bus.go:19-22 | an empty bus is at rest |
| SignalBuses.SignalBus.EmitExternal | telemetry/sig_bus.go:24-40 | terminates although handlers emit; between emissions every running watchdog has counted all budget signals since its start and its flags say exactly which limits are reached; only watchdogs add to the log |
| SignalBuses.SignalBus.FlagsSay | telemetry/wd_budget.go:39-74 | between emissions a running watchdog has warned if and only if at least one signal of category "budget" and at least `threshold` of them came since its start; the same of the exceeded budget |
| SignalBuses.SignalBus.Emit | telemetry/sig_bus.go:24-40 | an emission from outside or from a handler: the log grows, every handler counts the same signals, the flags not yet set decrease |
| SignalBuses.SignalBus.Deliver | telemetry/sig_bus.go:37-39 | one handler of the loop |
| SignalBuses.SignalBus.Handle | telemetry/wd_budget.go:39-74 | a stopped watchdog or another category: nothing; otherwise counted, and the flags of this watchdog are exact afterwards |
| SignalBuses.SignalBus.Count | telemetry/wd_budget.go:50-50 | one more token, no flag changed |
| SignalBuses.SignalBus.Check | telemetry/wd_budget.go:51-73 | both limits, judged by the count the handler started with, leave exact flags also after nested emissions |
| SignalBuses.SignalBus.Warn | telemetry/wd_budget.go:53-62 | sets the flag before emitting Yellow, so the emission terminates |
| SignalBuses.SignalBus.Exceed | telemetry/wd_budget.go:64-73 | sets the flag before emitting Red |
| SignalBuses.SignalBus.Start | telemetry/wd_budget.go:35-77 | a new watchdog sees the signals from now on |
| SignalBuses.SignalBus.Stop | telemetry/wd_budget.go:79-84 | its handler does nothing from now on |
| SignalBuses.SignalBus.Exceeded | telemetry/wd_budget.go:86-89 | between emissions, true if and only if the budget signals since the start are at least maxTokens, and at least one |
| SignalBuses.ZeroBudgetNotExceeded | telemetry/wd_budget.go:86-89 | a concrete watchdog whose count is at its budget, zero, and that has not exceeded it |
| BudgetSignals.ExternalAgrees | telemetry/sig_bus.go:24-40 | somebody else's signal leaves log and flags in agreement |
| BudgetSignals.OwnAgrees | telemetry/wd_budget.go:53-73 | a watchdog's own signal agrees once its flag is set, Red only after Yellow |
| BudgetSignals.NewWatchdogAgrees | telemetry/wd_budget.go:35-77 | a new watchdog has emitted nothing |
| BudgetSignals.OneYellowThenOneRed | telemetry/wd_budget.go:53-73 | each watchdog logs at most one Yellow and one Red, Yellow before Red |
| BudgetSignals.LogSays | telemetry/wd_budget.go:53-73 | a watchdog's Yellow, category and source included, is in the log if and only if it has warned, its Red if and only if it has seen the budget exceeded |
| BudgetSignals.CountSays | telemetry/wd_budget.go:46-50 | what is counted is the positions in the log with category "budget" |
| TraceRing.TraceProjection.constructor | telemetry/trace_ring.go:35-40 | an empty ring |
| TraceRing.TraceProjection.SetTraceID | telemetry/trace_ring.go:58-68 | only the trace id changes |
| TraceRing.TraceProjection.Append | telemetry/trace_ring.go:107-133 | the history grows by the event: its number is the next one, its time its own or else the clock reading, its trace id its own or else that of the ring, the rest as given |
| TraceRing.TraceProjection.HoldsTheLast | telemetry/trace_ring.go:119-126 | the ring holds the last events of that history, as many as fit |
| TraceRing.TraceProjection.At | telemetry/trace_ring.go:148-151 | the modular position of the i-th of the last n events holds that event |
| TraceRing.TraceProjection.Last | telemetry/trace_ring.go:136-153 | the last n events, or all, oldest first |
| TraceRing.TraceProjection.Newest | telemetry/trace_ring.go:147-152 | the last n events |
| TraceRing.TraceProjection.WalkWhere | telemetry/trace_ring.go:246-251 | the events that satisfy a test, oldest first |
| TraceRing.TraceProjection.Since | telemetry/trace_ring.go:156-167 | the events after a time, picked in order |
| TraceRing.TraceProjection.ByComponent | telemetry/trace_ring.go:184-195 | the events of a component, picked in order |
| TraceRing.TraceProjection.Get | telemetry/trace_ring.go:198-211 | found if and only if the number is among those still held, and then that event |
| TraceRing.TraceProjection.Stats | telemetry/trace_ring.go:214-229 | capacity, count, and the times of the oldest and the newest event |
| TraceRing.Wraps | telemetry/trace_ring.go:148-151 | the wrapped start plus an offset is the position of the event it stands for |
| TraceRing.ModApart | telemetry/trace_ring.go:119-120 | fewer than capacity consecutive events do not collide |
| TraceRing.Export | telemetry/trace_archive.go:25-37 | creation time and filter, and all events or exactly those of a component, oldest first |
| TraceRing.Import | telemetry/trace_archive.go:40-44 | appends them one by one, each with the next number, the clock reading at its turn if it has no time, and the trace id of the ring if it has none |
| TraceRing.Restore | telemetry/trace_archive.go:40-44 | a fresh, large enough ring holds exactly the archive's events, stamped anew |
| TraceRing.RoundTrip | telemetry/trace_archive.go:25-44 | unfiltered export into a fresh, large enough ring restores the events up to their ids, and with their ids if and only if the source never wrapped or is empty |
| TraceRing.Restored | telemetry/trace_archive.go:25-44 | the same about the stamped suffix of a history |
| StageRuns.Channel.Send | broker/simple_orchestrator.go:61-61 | a send needs room in the buffer |
| StageRuns.SimpleOrchestrator.constructor | broker/simple_orchestrator.go:41-57 | nothing runs |
| StageRuns.SimpleOrchestrator.Execute | broker/simple_orchestrator.go:60-90 | the buffered channel gets exactly the events of the run and is closed; the execution's entries are gone; every effect is that of a stage entered |
| StageRuns.SimpleOrchestrator.RunStages | broker/simple_orchestrator.go:79-86 | the stage loop and the final event |
| StageRuns.SimpleOrchestrator.RunStage | broker/simple_orchestrator.go:79-85 | one stage, and the two closing events if it fails |
| StageRuns.SimpleOrchestrator.ExecuteStage | broker/simple_orchestrator.go:92-177 | result, events and effects of one stage, by what fails first |
| StageRuns.SimpleOrchestrator.Converse | broker/simple_orchestrator.go:122-176 | the part between starting and stopping the driver |
| StageRuns.SimpleOrchestrator.Receive | broker/simple_orchestrator.go:126-157 | receiving succeeds if and only if the messages end or reach a positive token budget; interrupted before, it fails with what interrupted it |
| StageRuns.PassedStages | broker/simple_orchestrator.go:79-84 | the number of stages before the first that does not pass its gate |
| StageRuns.RunShape | broker/simple_orchestrator.go:60-177 | the events are (started, gate passed, completed)* and one final done, with the failed stage last |
| StageRuns.RunSays | broker/simple_orchestrator.go:60-177 | event by event, in the fields of the scripts: three events for each stage before the first in which something fails, and then the success, or what is said of that stage by what fails in it first |
| StageRuns.InterruptedSays | broker/simple_orchestrator.go:127-140 | a stage interrupted with m sends no gate event, and the run ends "failed: " and m |
| StageRuns.RunFits | broker/simple_orchestrator.go:61-61 | at most 3 n + 1 events for n stages, so no send blocks |
| StageRuns.LastSaysSuccess | broker/simple_orchestrator.go:79-86 | the last event is the done, and says success if and only if every stage passed its gate |
| StageRuns.EverythingTornDown | broker/simple_orchestrator.go:110-120 | every sandbox created is destroyed exactly once, every driver started is stopped exactly once |
| StageRuns.StagesDoNotOverlap | broker/simple_orchestrator.go:79-120 | setup and teardown are nested, and no two stages overlap |
| StageRuns.Broker.HandleIntent | broker/broker.go:161-218 | the run's events are relayed in order; success is reported if and only if in every stage sandbox, start, send and gate succeed and the messages end or reach a positive token budget; otherwise the summary is "failed: " and what failed |
| StageRuns.Broker.Drain | broker/broker.go:183-187 | all events are relayed, the last one is kept |
| ContextRelay.ContextMonitor.constructor | cortex/monitor.go:81-91 | an idle monitor |
| ContextRelay.ContextMonitor.Record | cortex/monitor.go:93-123 | counts, and moves Ready to Swapping or Idle to Spawning at their thresholds, swap first; what is compared is all tokens in proportion to the window, nothing without a window |
| ContextRelay.ContextMonitor.RecordAll | cortex/monitor.go:93-123 | what turns recorded by others can do to the state, and the token totals afterwards |
| ContextRelay.ContextMonitor.SetState | cortex/monitor.go:148-152 | only the state changes |
| ContextRelay.ContextMonitor.Reset | cortex/monitor.go:169-175 | idle, with zero tokens |
| ContextRelay.RelayManager.constructor | cortex/relay.go:60-74 | the relay invariant holds at the start |
| ContextRelay.RelayManager.RecordTurn | cortex/monitor.go:93-123 | a turn recorded between relays keeps the relay invariant |
| ContextRelay.RelayManager.QueuePrompt | cortex/relay.go:133-137 | the prompt is queued last |
| ContextRelay.RelayManager.DrainQueue | cortex/relay.go:140-146 | every queued prompt is drained once, in order |
| ContextRelay.RelayManager.SpawnBackground | cortex/relay.go:150-198 | succeeds if and only if factory, start and every replay do; then the backup holds the seed and the monitor is ready; a driver started in vain is stopped |
| ContextRelay.SpawnSays | cortex/relay.go:150-198 | it succeeds if and only if there is a factory, it makes a driver, this starts, and as many sends go through as the seed has user entries |
| ContextRelay.RelayManager.SeedBackup | cortex/relay.go:155-168 | the seed: a summary of the old entries, if there are any, and the recent ones |
| ContextRelay.BackupSays | cortex/relay.go:155-168 | the backup holds the last four entries after the transcript of as many entries before them, counted from the first, as fit in 50000 bytes |
| ContextRelay.RelayManager.WarmUp | cortex/relay.go:176-192 | the started driver becomes the backup or is stopped |
| ContextRelay.RelayManager.Replay | cortex/relay.go:181-189 | every user entry is replayed, until a send fails |
| ContextRelay.RelayManager.SpawnOrCompact | cortex/relay.go:91-96 | a failed spawn leaves the monitor idle and the active session compacted |
| ContextRelay.RelayManager.ExecuteSwap | cortex/relay.go:202-250 | with a backup: it becomes active, the old driver is stopped, the monitor is idle with zero tokens; without one nothing changes |
| ContextRelay.RelayManager.CheckAndRelay | cortex/relay.go:76-130 | a backup driver exists if and only if the monitor is Ready or Swapping; every driver started is exactly one of active, backup or stopped; when a backup is spawned and when it takes over; also with turns recorded meanwhile |
| ContextRelay.RelayKeepsAnswers | cortex/relay.go:91-96 | whatever a relay does to a session keeps its tool calls answered |
| Caches.StoredFlat | cache/mem.go:18-27 | storing in the nested maps updates the plain map at that entry only |
| Caches.EvictedFlat | cache/mem.go:58-67 | evicting removes that entry only, whether or not its scope goes with it |
| Caches.ScopeEvictedFlat | cache/mem.go:69-73 | evicting a scope removes exactly its entries |
| Caches.SizeAll | cache/mem.go:85-93 | summing over scopes counts the entries of the plain map |
| Caches.MemCache.constructor | cache/mem.go:14-16 | an empty cache |
| Caches.MemCache.Put | cache/mem.go:18-27 | the plain map is updated at that entry |
| Caches.MemCache.Get | cache/mem.go:29-42 | what the plain map holds there, if anything |
| Caches.MemCache.Keys | cache/mem.go:44-56 | the keys of a scope in the plain map, each once |
| Caches.MemCache.Evict | cache/mem.go:58-67 | the plain map loses that entry, and a scope goes with its last key |
| Caches.MemCache.EvictScope | cache/mem.go:69-73 | the plain map loses the entries of that scope |
| Caches.MemCache.Scopes | cache/mem.go:75-83 | the scopes, each once |
| Caches.MemCache.Len | cache/mem.go:85-93 | the number of entries of the plain map |
| Caches.Merge | cache/writethrough.go:38-55 | the elements of both lists, each once |
| Caches.WriteThrough.constructor | cache/writethrough.go:16-18 | over an empty L1, agreement from the start |
| Caches.WriteThrough.Put | cache/writethrough.go:20-23 | an update of the plain map, after which that entry, and no other, is fresh if it was not |
| Caches.WriteThrough.Get | cache/writethrough.go:25-36 | the plain map's answer if and only if L1 is not stale there; the plain map is unchanged, and so is what is stale |
| Caches.WriteThrough.Fetch | cache/writethrough.go:25-36 | L1's answer, or else L2's, promoted |
| Caches.WriteThrough.Keys | cache/writethrough.go:38-55 | the keys of the scope in L1 and in the plain map, each once; those of the plain map alone if nothing is stale |
| Caches.WriteThrough.Evict | cache/writethrough.go:57-60 | no effect on the plain map, and that entry is fresh afterwards |
| Caches.WriteThrough.EvictScope | cache/writethrough.go:62-65 | the same for a scope |
| Caches.WriteThrough.Scopes | cache/writethrough.go:67-83 | the scopes of L1 and those that have a key, each once; the latter alone if nothing is stale |
| Caches.WriteThrough.Len | cache/writethrough.go:85-88 | the size of the plain map |
| Caches.ScopesHaveKeys | cache/writethrough.go:67-83 | L1's scopes are among L2's, and each of those has a key |
| SharedCaches.WriteSpoils | cache/writethrough.go:5-23 | an agent's write makes an entry of another's L1 stale if and only if that one holds something else there |
| SharedCaches.SharedIsLastWritten | cache/writethrough.go:20-36 | whatever all agents did, the shared level holds at an entry what was last written there |
| SharedCaches.LevelIsHeld | cache/writethrough.go:20-65 | and an agent's L1 holds what had last been written when it took its entry: at its own write, or at its first read since it dropped the entry |
| SharedCaches.ReadIsRightIff | cache/writethrough.go:25-36 | so its read is the plain map's if and only if it holds nothing or the writes since then left the same data last |
| SharedCaches.OwnWriteStaysDisjoint | cache/writethrough.go:20-23 | if agents keep to scopes of their own, a write makes nothing stale |
| SharedCaches.OwnReadStaysDisjoint | cache/writethrough.go:25-36 | nor does a read by the owner, which promotes only what the owner alone writes |
| SharedCaches.SharedCache.constructor | cache/writethrough.go:5-18 | several wrappers over one L2 |
| SharedCaches.SharedCache.Put | cache/writethrough.go:20-23 | any agent's write is an update of the one plain map, and of no L1 but its own; an owner's keeps the agents apart |
| SharedCaches.SharedCache.Get | cache/writethrough.go:25-36 | any agent's read gives the plain map's answer if and only if its own L1 is not stale there, and is the read step of such a sequence |
| SharedCaches.SharedCache.Fetch | cache/writethrough.go:25-36 | its L1's answer, or else that of the shared level, promoted |
| SharedCaches.SharedCache.Keys | cache/writethrough.go:38-55 | the keys of a scope in its L1 and in the plain map |
| SharedCaches.SharedCache.Scopes | cache/writethrough.go:67-83 | the scopes of its L1 and those that have a key |
| SharedCaches.SharedCache.Len | cache/writethrough.go:85-88 | the size of the plain map, for any agent |
| SharedCaches.SharedCache.Evict | cache/writethrough.go:57-60 | no effect on the plain map or on another's L1 |
| SharedCaches.SharedCache.EvictScope | cache/writethrough.go:62-65 | no effect on the plain map or on another's L1 |
| SharedCaches.ForeignWriteGoesStale | cache/writethrough.go:20-28 | two agents: after the second overwrites an entry, the first still reads its own |
| Cordons.CommonPathMeansPrefix | broker/cordon.go:91-103 | of two scopes that cover the same path, one is a directory prefix of the other |
| Cordons.OverlapIffCommonPath | broker/cordon.go:79-89 | two scope lists overlap if and only if they cover a common path |
| Cordons.PathPrefixIff | broker/cordon.go:91-103 | one path covers another if and only if they are equal or the other goes on after a slash |
| Cordons.PrefixIsDirectory | broker/cordon.go:91-103 | so "auth" covers "auth/login.go" and not "authz" |
| Cordons.CordonRegistry.constructor | broker/cordon.go:25-27 | no cordons |
| Cordons.CordonRegistry.Set | broker/cordon.go:30-39 | a cordon in force is appended |
| Cordons.CordonRegistry.Clear | broker/cordon.go:42-50 | exactly the cordons that share a path with the scope become cleared, in place; nothing else changes |
| Cordons.CordonRegistry.Overlaps | broker/cordon.go:52-64 | the cordons not cleared that share a path with these, picked in order |
| Cordons.InForceIff | broker/cordon.go:52-64 | a cordon is among them if and only if it is not cleared and covers a path that the paths cover |
| Cordons.ClearedBelowIsFree | broker/cordon.go:41-64 | once a scope is cleared no cordon in force covers any path at or below paths it covers |
| Cordons.ClearedScopeIsFree | broker/cordon.go:41-64 | once a scope is cleared no cordon in force covers any of its paths, and cordons that covered none of them stay |
| Formations.ValidateScopeDisjointness | broker/disjoint.go:11-27 | no error if and only if no path is covered by the RW scopes of two different non-observer units; otherwise the first clashing pair |
| Formations.ClashIffShared | broker/disjoint.go:13-24 | two units clash if and only if both can write and a path is covered by both |
| Formations.Formation.constructor | broker/formation.go:33-39 | the parts as given |
| Formations.Formation.Validate | broker/formation.go:41-64 | no error if and only if the formation is well-formed, otherwise the first thing wrong |
| Formations.Formation.DivideBudget | broker/formation.go:66-90 | each non-observer unit without a budget gets the total divided by the number of these units, truncated towards zero, in tokens and in wall-clock time; nothing else changes |
| Formations.Formation.CountNeeding | broker/formation.go:72-77 | how many units need a share |
| Formations.DividedSays | broker/formation.go:66-90 | the same, of the specification function |
| Formations.DividedSums | broker/formation.go:81-89 | the shares newly assigned sum to the total up to a remainder smaller than the number of units served |
| Formations.SharesWithinTotalIff | broker/formation.go:81-89 | they stay within the total, in tokens and in wall-clock time, if and only if that total is not negative or divides evenly |
| Formations.SharesExceedNegativeTotal | broker/formation.go:81-83 | two units that share a total of -1 get 0 each, which is more than the total |
| Formations.DividedKeepsScopes | broker/formation.go:85-89 | dividing leaves everything but budgets alone |
| Formations.Instantiate | broker/instantiate.go:8-34 | a formation is returned if and only if the substituted template is valid, otherwise the first thing wrong; field by field each unit and observer is its template with the scope for every variable in its read-only and writable paths, its environment values and its termination target, and the same role, keys and termination kind; the budgets are divided; no path is writable by two non-observer units |
| Formations.ReplaceAllSplits | broker/instantiate.go:73-75 | text before the first variable is kept, the variable becomes the scope, and so on |
| Formations.ReplaceAllReplaces | broker/instantiate.go:73-75 | the result is the pieces between the occurrences of the variable, joined by the scope, and the text itself if there is none |
| Formations.UnitsAreInstances | broker/instantiate.go:36-75 | field by field, what instantiating makes of each unit, with and without dividing the budget |
| TextWrap.FindBreak | tui/render.go:76-83 | the break that `BreakFrom` gives |
| TextWrap.BreakFromIsBreak | tui/render.go:76-83 | the last space at or before the width but not before its half, else the width |
| TextWrap.TrimLeft | tui/render.go:88-88 | exactly the leading spaces go |
| TextWrap.AfterBreak | tui/render.go:75-89 | what is left after the break and the spaces there, always shorter, for every positive width |
| TextWrap.WrapLine | tui/render.go:67-95 | the pieces of one line are written in order |
| TextWrap.WrapText | tui/render.go:60-98 | terminates for every width and writes the pieces of all lines; without a width, or within it, the text itself |
| TextWrap.WrappedLines | tui/render.go:60-98 | the output is made of the pieces of the input lines, in order, without the empty ones at the start; each within the width |
| TextWrap.WrapSays | tui/render.go:60-98 | the lines of the text in order, each as it is if it fits and otherwise cut at breaks, without the spaces there, one below the other, without the empty ones at the start |
| TextWrap.PiecesSay | tui/render.go:75-93 | where a long line is cut: at the last space from half the width up to the width, or else at the width |
| TextWrap.NothingDroppedIff | tui/render.go:66-93 | no piece is dropped if and only if the text does not start with a newline, nor, at width 1, with a space before another character |
| TextWrap.LeadingLineDropped | tui/render.go:66-74 | a concrete text whose empty first line is lost |
| TextWrap.WrappedFits | tui/render.go:59-98 | every output line has at most width bytes |
| TextWrap.WrapKeepsInk | tui/render.go:59-98 | the bytes other than space and newline are kept, in order |
| TextWrap.WrapIsIdempotent | tui/render.go:59-98 | wrapping wrapped text changes nothing |

## Left out

- HubMachine.RelayHub.RelayTurn: states one turn without interruption; interleavings with other relays, registrations and swaps are the runs of the protocol.
- HubMachine.RelayHub.Register: states a registration without interruption; what other relays send while it drains is in the runs of the protocol.
- HubMachine.RelayHub.RegisterShell: without interruption, as Register.
- HubMachine.RelayHub.RegisterBackend: without interruption, as Register.
- HubMachine.RelayHub.Close: closing the listener and the error that gives are left out.
- HubDelivery.DeliveredInOrder: assumes that a send failure on a connection is permanent and that no registration falls between a peer read and its enqueue; the exact condition is that of HubOrdering.InOrderIffNeverOvertakes.
- HubDelivery.RecoveredSendReorders: a run of the model, whose send outcomes are free; the socket transport keeps a connection closed and its encoder a write error.
- SanitizeTheorems.AppendedIsLongestFit: for token counts that are not negative; with others, trimming at each entry can drop more than trimming once would, and AppendedIsSuffix says that a suffix is left.
- SignalBuses.SignalBus.Emit: emissions from different goroutines at the same time are not modelled, nor are subscribers other than watchdogs that emit; nested emissions of watchdogs are.
- SignalBuses.SignalBus.EmitExternal: as Emit.
- SignalBuses.SignalBus.Start: starting one watchdog object twice, which would make two handlers share its counters, is not modelled.
- TraceRing.TraceProjection.Append: concurrent appends, which can store events out of the order of their ids, are not modelled; the bridge to the event log is left out; the capacity must be positive, as the code divides by it.
- TraceRing.TraceProjection.Last: a negative count, on which the code panics, is excluded by its type.
- SessionHistory.Compact: a negative count of recent entries, on which the code panics, is excluded by its type.
- Caches.WriteThrough.Put: both levels are in-memory caches; the instrumented wrapper around them is not part of this model.
- ContextRelay.RelayManager.ExecuteSwap: archiving the old session and handing over a workstation are left out: their failures are logged and change nothing else.
- ContextRelay.ContextMonitor.Record: the two callbacks are left out.
- StageRuns.SimpleOrchestrator.Execute: the stages run to their end before the channel is read, which is what the buffer size is for; cancellation appears as an interrupted script; the signals a stage emits and external inputs are left out.
- StageRuns.SimpleOrchestrator.ExecuteStage: the signals it emits are left out.
- StageRuns.Broker.HandleIntent: planning, workstream registration, andon boards and dequeuing are left out.
- SessionHistory.Session.Sanitize: entries are values, so the sharing of blocks between the history and the copy being repaired is not captured.
- SessionHistory.SeedSession: the session's other fields are left out.
- ArtifactGraph.Graph.Cascade: update times are left out.
- The artifact graph's other operations (adding, claiming, annotating, reordering, saving and loading): single-step updates and disk access.
- The socket listener, registration messages and encodings of the hub, and the start of the new backend process: input and output.
- Workstream concurrency limits, permission checks, health and andon computation, the discourse store, log rings, schedulers and configuration registries: they would add easy members.
- Archive differences with their percentiles: floating-point statistics.
- `go list`, git, drivers, the model protocol and the terminal interface: input and output.
