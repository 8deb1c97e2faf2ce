// Budget watchdogs on the signal bus, counting and logging
// (telemetry/wd_budget.go, telemetry/sig_bus.go).
module BudgetSignals {

  datatype Level = Green | Yellow | Red | Black

  datatype Signal = Signal(category: string, level: Level, source: string)

  const BUDGET := "budget"
  const WATCHDOG_NAME := "budget-watchdog"

  // Who emitted a signal: somebody else, or the watchdog with this number.
  datatype Origin = External | Dog(i: nat)

  // One started watchdog. `threshold` is where 80 % of maxTokens is reached.
  datatype Watchdog =
    Watchdog(maxTokens: int, threshold: int, tokens: nat, warned: bool, exceeded: bool, stopped: bool)
  {
    predicate ThresholdOk() {
      if maxTokens >= 0 then 0 <= threshold <= maxTokens else threshold <= 0
    }

    // Flags that are set are set for a reason.
    predicate Sound() {
      && ((warned || exceeded) ==> tokens >= 1)
      && (warned ==> tokens >= threshold) && (exceeded ==> tokens >= maxTokens)
    }

    // And flags that have a reason are set.
    predicate Settled() {
      && (warned <==> tokens >= 1 && tokens >= threshold)
      && (exceeded <==> tokens >= 1 && tokens >= maxTokens)
    }

    function Unset(): nat {
      (if warned then 0 else 1) + (if exceeded then 0 else 1)
    }
  }

  ghost function Unset(dogs: seq<Watchdog>): nat {
    if dogs == [] then 0 else Unset(dogs[..|dogs| - 1]) + dogs[|dogs| - 1].Unset()
  }

  lemma {:induction false} UnsetUpdate(dogs: seq<Watchdog>, i: nat, d: Watchdog)
    requires i < |dogs|
    ensures Unset(dogs[i := d]) == Unset(dogs) - dogs[i].Unset() + d.Unset()
  {
    var n := |dogs| - 1;
    if i == n {
      assert dogs[i := d][..n] == dogs[..n];
    } else {
      assert dogs[i := d][..n] == dogs[..n][i := d];
      UnsetUpdate(dogs[..n], i, d);
    }
  }

  // The budget signals of a log.
  ghost function BudgetCount(signals: seq<Signal>): nat {
    if signals == [] then 0 else
      BudgetCount(signals[..|signals| - 1]) + if signals[|signals| - 1].category == BUDGET then 1 else 0
  }

  ghost function BudgetPlaces(signals: seq<Signal>): set<nat> {
    set k: nat | k < |signals| && signals[k].category == "budget"
  }

  lemma {:induction false} CountSays(signals: seq<Signal>)
    ensures BudgetCount(signals) == |BudgetPlaces(signals)|
  {
    if signals == [] {
      assert BudgetPlaces(signals) == {};
    } else {
      var n := |signals| - 1;
      CountSays(signals[..n]);
      if signals[n].category == "budget" {
        assert BudgetPlaces(signals) == BudgetPlaces(signals[..n]) + {n};
      } else {
        assert BudgetPlaces(signals) == BudgetPlaces(signals[..n]);
      }
    }
  }

  // How many signals of this level watchdog i emitted.
  ghost function Emitted(signals: seq<Signal>, who: seq<Origin>, i: nat, level: Level): nat
    requires |who| == |signals|
  {
    if signals == [] then 0 else
      var n := |signals| - 1;
      Emitted(signals[..n], who[..n], i, level) + if who[n] == Dog(i) && signals[n].level == level then 1 else 0
  }

  lemma {:induction false} EmittedExists(signals: seq<Signal>, who: seq<Origin>, i: nat, level: Level) returns (k: nat)
    requires |who| == |signals| && Emitted(signals, who, i, level) > 0
    ensures k < |signals| && who[k] == Dog(i) && signals[k].level == level
  {
    var n := |signals| - 1;
    if who[n] == Dog(i) && signals[n].level == level {
      k := n;
    } else {
      k := EmittedExists(signals[..n], who[..n], i, level);
    }
  }

  // Watchdog i's Red at k comes after a Yellow of its own.
  ghost predicate YellowFirst(signals: seq<Signal>, who: seq<Origin>, k: nat)
    requires |who| == |signals| && k < |signals|
  {
    who[k].Dog? && signals[k].level == Red ==> exists j :: 0 <= j < k && who[j] == who[k] && signals[j].level == Yellow
  }

  // The signals that watchdogs emit.
  ghost predicate IsOwn(s: Signal) {
    s.category == BUDGET && s.source == WATCHDOG_NAME && s.level in {Yellow, Red}
  }

  // Only watchdogs added to the log.
  ghost predicate OnlyDogs(before: seq<Origin>, after: seq<Origin>) {
    before <= after && forall k :: |before| <= k < |after| ==> after[k].Dog?
  }

  // The log agrees with the flags: each watchdog emitted one Yellow if it has
  // warned, one Red if it has seen the budget exceeded, and Yellow before Red.
  ghost predicate Agrees(signals: seq<Signal>, who: seq<Origin>, dogs: seq<Watchdog>) {
    && |who| == |signals|
    && (forall k :: 0 <= k < |who| && who[k].Dog? ==> who[k].i < |dogs| && IsOwn(signals[k]))
    && (forall i :: 0 <= i < |dogs| ==> LoggedFor(signals, who, i, dogs[i].warned, dogs[i].exceeded))
    && forall k :: 0 <= k < |signals| ==> YellowFirst(signals, who, k)
  }

  ghost predicate LoggedFor(signals: seq<Signal>, who: seq<Origin>, i: nat, warned: bool, exceeded: bool)
    requires |who| == |signals|
  {
    && Emitted(signals, who, i, Yellow) == (if warned then 1 else 0)
    && Emitted(signals, who, i, Red) == (if exceeded then 1 else 0)
  }

  lemma {:induction false} LogOne(signals: seq<Signal>, who: seq<Origin>, s: Signal, o: Origin)
    requires |who| == |signals|
    ensures BudgetCount(signals + [s]) == BudgetCount(signals) + if s.category == BUDGET then 1 else 0
    ensures forall i, level :: (Emitted(signals + [s], who + [o], i, level) ==
      Emitted(signals, who, i, level) + (if o == Dog(i) && s.level == level then 1 else 0))
  {
    assert (signals + [s])[..|signals|] == signals && (who + [o])[..|who|] == who;
  }

  lemma {:induction false} LogKeepsOrder(signals: seq<Signal>, who: seq<Origin>, s: Signal, o: Origin)
    requires |who| == |signals| && forall k :: 0 <= k < |signals| ==> YellowFirst(signals, who, k)
    requires o.Dog? && s.level == Red ==> Emitted(signals, who, o.i, Yellow) > 0
    ensures forall k :: 0 <= k < |signals + [s]| ==> YellowFirst(signals + [s], who + [o], k)
  {
    forall k | 0 <= k < |signals + [s]|
      ensures YellowFirst(signals + [s], who + [o], k)
    {
      if k < |signals| {
        assert YellowFirst(signals, who, k);
        if who[k].Dog? && signals[k].level == Red {
          var j :| 0 <= j < k && who[j] == who[k] && signals[j].level == Yellow;
          assert (who + [o])[j] == who[j] && (signals + [s])[j] == signals[j];
        }
      } else if o.Dog? && s.level == Red {
        var j := EmittedExists(signals, who, o.i, Yellow);
        assert (who + [o])[j] == o && (signals + [s])[j].level == Yellow;
      }
    }
  }

  // Somebody else's signal leaves the log in agreement.
  lemma ExternalAgrees(signals: seq<Signal>, who: seq<Origin>, dogs: seq<Watchdog>, s: Signal)
    requires Agrees(signals, who, dogs)
    ensures Agrees(signals + [s], who + [External], dogs)
  {
    LogKeepsOrder(signals, who, s, External);
    forall i | 0 <= i < |dogs|
      ensures LoggedFor(signals + [s], who + [External], i, dogs[i].warned, dogs[i].exceeded)
    {
      assert LoggedFor(signals, who, i, dogs[i].warned, dogs[i].exceeded);
    }
  }

  // A watchdog's signal agrees once its flag is set; a Red needs the Yellow before.
  lemma OwnAgrees(signals: seq<Signal>, who: seq<Origin>, dogs: seq<Watchdog>, s: Signal, i: nat, d: Watchdog)
    requires Agrees(signals, who, dogs) && i < |dogs| && IsOwn(s)
    requires (s.level == Yellow && !dogs[i].warned && d.warned && d.exceeded == dogs[i].exceeded)
          || (s.level == Red && !dogs[i].exceeded && d.exceeded && d.warned && dogs[i].warned)
    ensures Agrees(signals + [s], who + [Dog(i)], dogs[i := d])
  {
    assert LoggedFor(signals, who, i, dogs[i].warned, dogs[i].exceeded);
    LogKeepsOrder(signals, who, s, Dog(i));
    var after := dogs[i := d];
    forall k | 0 <= k < |after|
      ensures LoggedFor(signals + [s], who + [Dog(i)], k, after[k].warned, after[k].exceeded)
    {
      assert LoggedFor(signals, who, k, dogs[k].warned, dogs[k].exceeded);
    }
  }

  // A watchdog with a new number has emitted nothing.
  lemma {:induction false} NothingEmitted(signals: seq<Signal>, who: seq<Origin>, i: nat, level: Level)
    requires |who| == |signals| && forall k :: 0 <= k < |who| ==> who[k] != Dog(i)
    ensures Emitted(signals, who, i, level) == 0
  {
    if signals != [] {
      NothingEmitted(signals[..|signals| - 1], who[..|who| - 1], i, level);
    }
  }

  lemma NewWatchdogAgrees(signals: seq<Signal>, who: seq<Origin>, dogs: seq<Watchdog>, d: Watchdog)
    requires Agrees(signals, who, dogs) && !d.warned && !d.exceeded
    ensures Agrees(signals, who, dogs + [d])
  {
    NothingEmitted(signals, who, |dogs|, Yellow);
    NothingEmitted(signals, who, |dogs|, Red);
    var after := dogs + [d];
    forall i | 0 <= i < |after|
      ensures LoggedFor(signals, who, i, after[i].warned, after[i].exceeded)
    {
      if i < |dogs| {
        assert LoggedFor(signals, who, i, dogs[i].warned, dogs[i].exceeded);
      }
    }
  }

  lemma {:induction false} EmittedTwice(signals: seq<Signal>, who: seq<Origin>, j: nat, k: nat)
    requires |who| == |signals| && j < k < |signals| && who[j].Dog? && who[k] == who[j]
    requires signals[k].level == signals[j].level
    ensures Emitted(signals, who, who[j].i, signals[j].level) >= 2
  {
    var n := |signals| - 1;
    if k < n {
      EmittedTwice(signals[..n], who[..n], j, k);
    } else {
      EmittedOnce(signals[..n], who[..n], j);
    }
  }

  lemma {:induction false} EmittedOnce(signals: seq<Signal>, who: seq<Origin>, j: nat)
    requires |who| == |signals| && j < |signals| && who[j].Dog?
    ensures Emitted(signals, who, who[j].i, signals[j].level) >= 1
  {
    var n := |signals| - 1;
    if j < n {
      EmittedOnce(signals[..n], who[..n], j);
    }
  }

  // Each watchdog emits each level at most once, and its Red only after its Yellow.
  lemma OneYellowThenOneRed(signals: seq<Signal>, who: seq<Origin>, dogs: seq<Watchdog>, j: nat, k: nat)
    requires Agrees(signals, who, dogs) && j < |signals| && k < |signals| && who[j].Dog? && who[k] == who[j]
    requires j != k
    ensures signals[j].level != signals[k].level
    ensures j < k ==> signals[j].level == Yellow && signals[k].level == Red
  {
    assert LoggedFor(signals, who, who[j].i, dogs[who[j].i].warned, dogs[who[j].i].exceeded);
    var a, b := if j < k then j else k, if j < k then k else j;
    if signals[a].level == signals[b].level {
      EmittedTwice(signals, who, a, b);
    }
    if signals[a].level == Red {
      assert YellowFirst(signals, who, a);
      var y :| 0 <= y < a && who[y] == who[a] && signals[y].level == Yellow;
      EmittedTwice(signals, who, y, b);
    }
  }

  // The Yellow of a watchdog is in the log exactly if it has warned, the Red exactly if it
  // has seen the budget exceeded.
  lemma LogSays(signals: seq<Signal>, who: seq<Origin>, dogs: seq<Watchdog>, i: nat)
    requires Agrees(signals, who, dogs) && i < |dogs|
    ensures dogs[i].warned <==> exists k: nat :: LoggedAt(signals, who, k, Dog(i), Yellow)
    ensures dogs[i].exceeded <==> exists k: nat :: LoggedAt(signals, who, k, Dog(i), Red)
    ensures forall k :: 0 <= k < |who| && who[k] == Dog(i) ==> signals[k].level == Yellow || signals[k].level == Red
  {
    assert LoggedFor(signals, who, i, dogs[i].warned, dogs[i].exceeded);
    LevelSays(signals, who, dogs, i, Yellow);
    LevelSays(signals, who, dogs, i, Red);
  }

  ghost predicate LoggedAt(signals: seq<Signal>, who: seq<Origin>, k: nat, o: Origin, level: Level) {
    k < |who| && k < |signals| && who[k] == o && signals[k] == Signal("budget", level, "budget-watchdog")
  }

  lemma {:induction false} LevelSays(signals: seq<Signal>, who: seq<Origin>, dogs: seq<Watchdog>, i: nat, level: Level)
    requires Agrees(signals, who, dogs) && i < |dogs|
    ensures Emitted(signals, who, i, level) > 0 <==> exists k: nat :: LoggedAt(signals, who, k, Dog(i), level)
  {
    if Emitted(signals, who, i, level) > 0 {
      var k := EmittedExists(signals, who, i, level);
      assert LoggedAt(signals, who, k, Dog(i), level);
    }
    if k: nat :| LoggedAt(signals, who, k, Dog(i), level) {
      EmittedOnce(signals, who, k);
    }
  }
}
