// The signal bus and the budget watchdogs that re-enter it
// (telemetry/sig_bus.go, telemetry/wd_budget.go).
module SignalBuses {
  import opened BudgetSignals

  // What an emission does to the watchdogs, of which `added` budget signals came on.
  ghost predicate Handled(before: seq<Watchdog>, after: seq<Watchdog>, added: nat) {
    |after| == |before| && forall i :: 0 <= i < |before| ==> HandledOne(before[i], after[i], added)
  }

  ghost predicate HandledOne(d: Watchdog, d': Watchdog, added: nat) {
    && d'.maxTokens == d.maxTokens && d'.threshold == d.threshold && d'.stopped == d.stopped
    && (d.stopped ==> d' == d)
    && (!d.stopped ==> d'.tokens == d.tokens + added)
    && (d.warned ==> d'.warned) && (d.exceeded ==> d'.exceeded)
  }

  ghost predicate AllSound(dogs: seq<Watchdog>) {
    forall i :: 0 <= i < |dogs| ==> dogs[i].Sound() && dogs[i].ThresholdOk()
  }

  ghost predicate SettledBelow(dogs: seq<Watchdog>, n: nat) {
    forall i :: 0 <= i < n && i < |dogs| && !dogs[i].stopped ==> dogs[i].Settled()
  }

  // The watchdogs once number i has counted the signal s.
  function Counted(dogs: seq<Watchdog>, i: nat, s: Signal): seq<Watchdog>
    requires i < |dogs|
  {
    if dogs[i].stopped || s.category != BUDGET then dogs else dogs[i := dogs[i].(tokens := dogs[i].tokens + 1)]
  }

  // After i handlers of an emission: those have the `added` budget signals, the
  // others all of them but s itself.
  ghost predicate PartlyHandled(before: seq<Watchdog>, after: seq<Watchdog>, i: nat, added: nat, own: nat) {
    && |after| == |before| && own <= added
    && forall j :: 0 <= j < |before| ==> HandledOne(before[j], after[j], if j < i then added else added - own)
  }

  lemma HandledNext(before: seq<Watchdog>, mid: seq<Watchdog>, after: seq<Watchdog>, i: nat, s: Signal, own: nat,
      a: nat, b: nat)
    requires i < |mid| && PartlyHandled(before, mid, i, a, own) && own == (if s.category == BUDGET then 1 else 0)
    requires Handled(Counted(mid, i, s), after, b)
    ensures PartlyHandled(before, after, i + 1, a + b, own)
  {
    forall j | 0 <= j < |before|
      ensures HandledOne(before[j], after[j], if j < i + 1 then a + b else a + b - own)
    {
      assert HandledOne(before[j], mid[j], if j < i then a else a - own);
      assert HandledOne(Counted(mid, i, s)[j], after[j], b);
    }
  }

  lemma SettledNext(mid: seq<Watchdog>, after: seq<Watchdog>, i: nat)
    requires |after| == |mid| && i < |mid| && SettledBelow(mid, i)
    requires forall j :: 0 <= j < |mid| ==> (mid[j].stopped <==> after[j].stopped)
    requires forall j :: 0 <= j < |mid| && j != i ==> after[j] == mid[j] || after[j].stopped || after[j].Settled()
    requires after[i].stopped || after[i].Settled()
    ensures SettledBelow(after, i + 1)
  {
  }

  lemma HandledTwice(a: seq<Watchdog>, b: seq<Watchdog>, c: seq<Watchdog>, m: nat, n: nat)
    requires Handled(a, b, m) && Handled(b, c, n)
    ensures Handled(a, c, m + n)
  {
    forall i | 0 <= i < |a|
      ensures HandledOne(a[i], c[i], m + n)
    {
      assert HandledOne(a[i], b[i], m) && HandledOne(b[i], c[i], n);
    }
  }

  class SignalBus {
    var signals: seq<Signal>
    ghost var who: seq<Origin>
    // The handlers, in the order they were registered, and how many budget
    // signals the log held when each was.
    var dogs: seq<Watchdog>
    ghost var starts: seq<nat>

    constructor ()
      ensures AtRest() && signals == [] && dogs == []
    {
      signals, who, dogs, starts := [], [], [], [];
    }

    ghost predicate Valid()
      reads this
    {
      AllSound(dogs) && Agrees(signals, who, dogs)
    }

    // Between outermost emissions every running watchdog has counted all budget
    // signals since it was started, and its flags say exactly whether its
    // threshold and its budget are reached.
    ghost predicate AtRest()
      reads this
    {
      && Valid() && SettledBelow(dogs, |dogs|)
      && |starts| == |dogs|
      && forall i :: 0 <= i < |dogs| && !dogs[i].stopped ==> dogs[i].tokens + starts[i] == BudgetCount(signals)
    }

    // So a running watchdog has warned exactly if its threshold is reached, and seen the
    // budget exceeded exactly if that is, and in either case at least one signal came.
    lemma FlagsSay(i: nat)
      requires AtRest() && i < |dogs| && !dogs[i].stopped
      ensures var n := |BudgetPlaces(signals)| - starts[i];
        && (dogs[i].warned <==> n > 0 && n >= dogs[i].threshold)
        && (dogs[i].exceeded <==> n > 0 && n >= dogs[i].maxTokens)
    {
      CountSays(signals);
      assert dogs[i].tokens + starts[i] == BudgetCount(signals) && dogs[i].Settled();
    }

    // An emission from outside; every handler runs to completion.
    method EmitExternal(s: Signal)
      requires AtRest()
      modifies this
      ensures AtRest() && old(signals) + [s] <= signals && OnlyDogs(old(who) + [External], who)
      ensures |dogs| == |old(dogs)| && starts == old(starts)
      ensures forall i :: 0 <= i < |dogs| ==>
        dogs[i].maxTokens == old(dogs[i]).maxTokens && dogs[i].stopped == old(dogs[i]).stopped
    {
      ExternalAgrees(signals, who, dogs, s);
      ghost var before, count := dogs, BudgetCount(signals);
      Emit(s, External);
      forall i | 0 <= i < |dogs|
        ensures HandledOne(before[i], dogs[i], BudgetCount(signals) - count)
      {
      }
    }

    // A new watchdog registers its handler.
    method Start(maxTokens: int, threshold: int)
      requires AtRest() && Watchdog(maxTokens, threshold, 0, false, false, false).ThresholdOk()
      modifies this
      ensures AtRest() && signals == old(signals)
      ensures dogs == old(dogs) + [Watchdog(maxTokens, threshold, 0, false, false, false)]
      ensures starts == old(starts) + [BudgetCount(signals)]
    {
      NewWatchdogAgrees(signals, who, dogs, Watchdog(maxTokens, threshold, 0, false, false, false));
      dogs := dogs + [Watchdog(maxTokens, threshold, 0, false, false, false)];
      starts := starts + [BudgetCount(signals)];
    }

    method Stop(i: nat)
      requires AtRest() && i < |dogs|
      modifies this`dogs
      ensures AtRest() && dogs == old(dogs)[i := old(dogs)[i].(stopped := true)]
    {
      dogs := dogs[i := dogs[i].(stopped := true)];
    }

    method Exceeded(i: nat) returns (r: bool)
      requires AtRest() && i < |dogs| && !dogs[i].stopped
      ensures r <==> BudgetCount(signals) - starts[i] >= dogs[i].maxTokens && BudgetCount(signals) > starts[i]
    {
      r := dogs[i].exceeded;
    }

    method Emit(s: Signal, ghost o: Origin)
      requires AllSound(dogs) && Agrees(signals + [s], who + [o], dogs)
      modifies this`signals, this`who, this`dogs
      ensures Valid() && old(signals) + [s] <= signals && BudgetCount(old(signals)) <= BudgetCount(signals)
      ensures OnlyDogs(old(who) + [o], who)
      ensures Handled(old(dogs), dogs, BudgetCount(signals) - BudgetCount(old(signals)))
      ensures s.category == BUDGET ==> SettledBelow(dogs, |dogs|)
      ensures s.category != BUDGET ==> dogs == old(dogs)
      ensures Unset(dogs) <= Unset(old(dogs))
      decreases Unset(dogs), 5
    {
      ghost var before, earlier := dogs, signals;
      LogOne(signals, who, s, o);
      signals, who := signals + [s], who + [o];
      var n := |dogs|;
      for i := 0 to n
        invariant |dogs| == n && Delivering(before, earlier, s, i) && OnlyDogs(old(who) + [o], who)
      {
        Deliver(i, s, before, earlier);
      }
    }

    // An emission of s on the log `earlier` has called the first i handlers.
    ghost predicate Delivering(before: seq<Watchdog>, earlier: seq<Signal>, s: Signal, i: nat)
      reads this
    {
      var own := if s.category == BUDGET then 1 else 0;
      && Valid() && earlier + [s] <= signals && BudgetCount(signals) >= BudgetCount(earlier) + own
      && PartlyHandled(before, dogs, i, BudgetCount(signals) - BudgetCount(earlier), own)
      && (s.category == BUDGET ==> SettledBelow(dogs, i))
      && (s.category != BUDGET ==> dogs == before && BudgetCount(signals) == BudgetCount(earlier))
      && Unset(dogs) <= Unset(before)
    }

    method Deliver(i: nat, s: Signal, ghost before: seq<Watchdog>, ghost earlier: seq<Signal>)
      requires i < |dogs| && Delivering(before, earlier, s, i)
      modifies this`signals, this`who, this`dogs
      ensures |dogs| == |old(dogs)| && Delivering(before, earlier, s, i + 1) && OnlyDogs(old(who), who)
      decreases Unset(dogs), 4
    {
      ghost var mid, c, count := dogs, BudgetCount(signals), BudgetCount(earlier);
      Handle(i, s);
      HandledNext(before, mid, dogs, i, s, if s.category == BUDGET then 1 else 0, c - count, BudgetCount(signals) - c);
      if s.category == BUDGET {
        SettledNext(mid, dogs, i);
      }
    }

    method Handle(i: nat, s: Signal)
      requires Valid() && i < |dogs|
      modifies this`signals, this`who, this`dogs
      ensures Valid() && old(signals) <= signals && BudgetCount(old(signals)) <= BudgetCount(signals)
      ensures OnlyDogs(old(who), who)
      ensures |dogs| == |old(dogs)|
      ensures Handled(Counted(old(dogs), i, s), dogs, BudgetCount(signals) - BudgetCount(old(signals)))
      ensures s.category == BUDGET ==> dogs[i].stopped || dogs[i].Settled()
      ensures s.category != BUDGET ==> dogs == old(dogs) && signals == old(signals)
      ensures forall j :: 0 <= j < |dogs| && j != i ==> dogs[j] == old(dogs[j]) || dogs[j].stopped || dogs[j].Settled()
      ensures forall j :: 0 <= j < |dogs| ==> (dogs[j].stopped <==> old(dogs[j]).stopped)
      ensures Unset(dogs) <= Unset(old(dogs))
      decreases Unset(dogs), 3
    {
      if dogs[i].stopped || s.category != BUDGET {
        return;
      }
      var current := dogs[i].tokens + 1;
      Count(i);
      Check(i, current);
    }

    // The two threshold checks; `current` is what the handler counted itself.
    method Check(i: nat, current: nat)
      requires Valid() && i < |dogs| && !dogs[i].stopped && dogs[i].tokens == current >= 1
      modifies this`signals, this`who, this`dogs
      ensures Valid() && old(signals) <= signals && BudgetCount(old(signals)) <= BudgetCount(signals)
      ensures OnlyDogs(old(who), who)
      ensures Handled(old(dogs), dogs, BudgetCount(signals) - BudgetCount(old(signals)))
      ensures dogs[i].Settled()
      ensures dogs == old(dogs) || SettledBelow(dogs, |dogs|)
      ensures Unset(dogs) <= Unset(old(dogs))
      decreases Unset(dogs), 2
    {
      ghost var before, count := dogs, BudgetCount(signals);
      if current >= dogs[i].threshold && !dogs[i].warned {
        Warn(i);
      }
      assert HandledOne(before[i], dogs[i], BudgetCount(signals) - count);
      ghost var mid, c := dogs, BudgetCount(signals);
      if current >= dogs[i].maxTokens && !dogs[i].exceeded {
        Exceed(i);
        HandledTwice(before, mid, dogs, c - count, BudgetCount(signals) - c);
        assert HandledOne(before[i], dogs[i], BudgetCount(signals) - count);
      }
    }

    method Count(i: nat)
      requires Valid() && i < |dogs| && !dogs[i].stopped
      modifies this`dogs
      ensures Valid() && dogs == old(dogs)[i := old(dogs)[i].(tokens := old(dogs)[i].tokens + 1)]
      ensures Unset(dogs) == Unset(old(dogs))
    {
      var d := dogs[i].(tokens := dogs[i].tokens + 1);
      UnsetUpdate(dogs, i, d);
      dogs := dogs[i := d];
    }

    method Warn(i: nat)
      requires Valid() && i < |dogs| && !dogs[i].stopped && !dogs[i].warned && dogs[i].tokens >= 1
      requires dogs[i].tokens >= dogs[i].threshold
      modifies this`signals, this`who, this`dogs
      ensures Valid() && old(signals) <= signals && BudgetCount(old(signals)) <= BudgetCount(signals)
      ensures OnlyDogs(old(who), who)
      ensures Handled(old(dogs), dogs, BudgetCount(signals) - BudgetCount(old(signals)))
      ensures SettledBelow(dogs, |dogs|) && Unset(dogs) < Unset(old(dogs))
      decreases Unset(dogs), 1
    {
      ghost var d, s, before := dogs[i].(warned := true), Signal(BUDGET, Yellow, WATCHDOG_NAME), dogs;
      UnsetUpdate(dogs, i, d);
      OwnAgrees(signals, who, dogs, s, i, d);
      dogs := dogs[i := dogs[i].(warned := true)];
      assert Handled(before, dogs, 0);
      ghost var mid := dogs;
      Emit(Signal(BUDGET, Yellow, WATCHDOG_NAME), Dog(i));
      HandledTwice(before, mid, dogs, 0, BudgetCount(signals) - BudgetCount(old(signals)));
    }

    method Exceed(i: nat)
      requires Valid() && i < |dogs| && !dogs[i].stopped && dogs[i].warned && !dogs[i].exceeded
      requires dogs[i].tokens >= dogs[i].maxTokens
      modifies this`signals, this`who, this`dogs
      ensures Valid() && old(signals) <= signals && BudgetCount(old(signals)) <= BudgetCount(signals)
      ensures OnlyDogs(old(who), who)
      ensures Handled(old(dogs), dogs, BudgetCount(signals) - BudgetCount(old(signals)))
      ensures SettledBelow(dogs, |dogs|) && Unset(dogs) < Unset(old(dogs))
      decreases Unset(dogs), 1
    {
      ghost var d, s, before := dogs[i].(exceeded := true), Signal(BUDGET, Red, WATCHDOG_NAME), dogs;
      UnsetUpdate(dogs, i, d);
      OwnAgrees(signals, who, dogs, s, i, d);
      dogs := dogs[i := dogs[i].(exceeded := true)];
      assert Handled(before, dogs, 0);
      ghost var mid := dogs;
      Emit(Signal(BUDGET, Red, WATCHDOG_NAME), Dog(i));
      HandledTwice(before, mid, dogs, 0, BudgetCount(signals) - BudgetCount(old(signals)));
    }
  }

  // A watchdog with no budget at all has exceeded it only once a signal comes.
  method ZeroBudgetNotExceeded() returns (bus: SignalBus, r: bool)
    ensures fresh(bus) && bus.AtRest() && |bus.dogs| == 1 && |bus.starts| == 1
    ensures BudgetCount(bus.signals) - bus.starts[0] >= bus.dogs[0].maxTokens && !r
  {
    bus := new SignalBus();
    bus.Start(0, 0);
    r := bus.Exceeded(0);
  }
}
