// Repair of orphaned tool calls (cortex/sanitize.go).
module ToolRepair {
  import opened Wrappers
  import opened Transcript

  const INTERRUPTED := "(interrupted — session resumed)"

  ghost function Synthetic(id: string): Block {
    Block(TOOL_RESULT, "", None, Some(ToolResult(id, INTERRUPTED, true)))
  }

  // A synthetic result for each id the successor does not answer, in order.
  ghost function Orphans(ids: seq<string>, answered: set<string>): seq<Block> {
    if ids == [] then [] else
      var n := |ids| - 1;
      Orphans(ids[..n], answered) + if ids[n] in answered then [] else [Synthetic(ids[n])]
  }

  // What is injected after entry i.
  ghost function Injected(h: seq<Entry>, i: nat): seq<Entry>
    requires i < |h|
  {
    var blocks := Orphans(Calls(h[i]), NextResults(h, i));
    if blocks == [] then [] else [Entry(ROLE_USER, "", blocks, 0)]
  }

  ghost function Gaps(h: seq<Entry>): seq<seq<Entry>> {
    seq(|h|, i requires 0 <= i < |h| => Injected(h, i))
  }

  // The first n entries, each followed by its gap.
  ghost function Woven(h: seq<Entry>, gaps: seq<seq<Entry>>, n: nat): seq<Entry>
    requires n <= |h| == |gaps|
  {
    if n == 0 then [] else Woven(h, gaps, n - 1) + [h[n - 1]] + gaps[n - 1]
  }

  ghost function Repaired(h: seq<Entry>): seq<Entry> {
    Woven(h, Gaps(h), |h|)
  }

  // Where entry i ends up.
  ghost function Place(h: seq<Entry>, i: nat): nat
    requires i <= |h|
  {
    |Woven(h, Gaps(h), i)|
  }

  lemma {:induction false} WovenKeeps(h: seq<Entry>, gaps: seq<seq<Entry>>, n: nat)
    requires n <= |h| == |gaps|
    ensures Woven(h, gaps, n) <= Woven(h, gaps, |h|)
    ensures n < |h| ==> Woven(h, gaps, n) + [h[n]] + gaps[n] <= Woven(h, gaps, |h|)
    decreases |h| - n
  {
    if n < |h| {
      WovenKeeps(h, gaps, n + 1);
    }
  }

  lemma {:induction false} WovenFrom(h: seq<Entry>, gaps: seq<seq<Entry>>, n: nat, p: nat) returns (i: nat)
    requires n <= |h| == |gaps| && p < |Woven(h, gaps, n)|
    ensures i < n && |Woven(h, gaps, i)| <= p <= |Woven(h, gaps, i)| + |gaps[i]|
  {
    if p < |Woven(h, gaps, n - 1)| {
      i := WovenFrom(h, gaps, n - 1, p);
    } else {
      i := n - 1;
    }
  }

  lemma {:induction false} WovenSilent(h: seq<Entry>, gaps: seq<seq<Entry>>, n: nat)
    requires n <= |h| == |gaps|
    ensures |Woven(h, gaps, n)| >= n
    ensures |Woven(h, gaps, n)| == n <==> forall i :: 0 <= i < n ==> gaps[i] == []
    ensures |Woven(h, gaps, n)| == n ==> Woven(h, gaps, n) == h[..n]
  {
    if n > 0 {
      WovenSilent(h, gaps, n - 1);
      assert h[..n] == h[..n - 1] + [h[n - 1]];
    }
  }

  lemma {:induction false} OrphanIds(ids: seq<string>, answered: set<string>)
    ensures forall b :: b in Orphans(ids, answered) ==> b.IsResult() && !b.IsCall()
    ensures forall id :: Synthetic(id) in Orphans(ids, answered) <==> id in ids && id !in answered
    ensures Orphans(ids, answered) == [] <==> forall id :: id in ids ==> id in answered
    ensures forall b :: b in Orphans(ids, answered) ==>
      b.toolResult.Some? && b == Synthetic(b.toolResult.value.toolCallID)
  {
    if ids != [] {
      var n := |ids| - 1;
      assert ids == ids[..n] + [ids[n]];
      OrphanIds(ids[..n], answered);
      assert ids[n] in ids;
    }
  }

  lemma {:induction false} NoCalls(blocks: seq<Block>)
    requires forall b :: b in blocks ==> !b.IsCall()
    ensures CallIds(blocks) == []
  {
    if blocks != [] {
      var n := |blocks| - 1;
      assert blocks[n] in blocks;
      NoCalls(blocks[..n]);
    }
  }

  // An injected entry calls nothing and answers exactly the orphaned ids.
  lemma InjectedAnswers(h: seq<Entry>, i: nat)
    requires i < |h| && Injected(h, i) != []
    ensures Calls(Injected(h, i)[0]) == []
    ensures forall id :: id in Results(Injected(h, i)[0]) <==> id in Calls(h[i]) && id !in NextResults(h, i)
  {
    var ids, answered := Calls(h[i]), NextResults(h, i);
    OrphanIds(ids, answered);
    NoCalls(Orphans(ids, answered));
    forall id
      ensures id in Results(Injected(h, i)[0]) <==> id in ids && id !in answered
    {
      if id in ids && id !in answered {
        assert Synthetic(id) in Orphans(ids, answered);
      }
    }
  }

  lemma NothingInjectedIffAllAnswered(h: seq<Entry>, i: nat)
    requires i < |h|
    ensures Injected(h, i) == [] <==> AllAnswered(h, i)
  {
    OrphanIds(Calls(h[i]), NextResults(h, i));
  }

  // The original entries keep their order, with at most one entry injected after each.
  lemma RepairKeepsEntries(h: seq<Entry>, i: nat)
    requires i < |h|
    ensures Place(h, i) < |Repaired(h)| && Repaired(h)[Place(h, i)] == h[i]
    ensures Place(h, i + 1) == Place(h, i) + 1 + |Injected(h, i)| <= |Repaired(h)|
    ensures Injected(h, i) != [] ==> Repaired(h)[Place(h, i) + 1] == Injected(h, i)[0]
  {
    var a := Woven(h, Gaps(h), i);
    WovenKeeps(h, Gaps(h), i);
    WovenKeeps(h, Gaps(h), i + 1);
    var t := a + [h[i]] + Gaps(h)[i];
    assert t <= Repaired(h);
    assert t[|a|] == h[i];
    if Injected(h, i) != [] {
      assert t[|a| + 1] == Injected(h, i)[0];
    }
  }

  // Nothing else is in the repaired history.
  lemma EveryEntryPlaced(h: seq<Entry>, p: nat) returns (i: nat)
    requires p < |Repaired(h)|
    ensures i < |h| && (p == Place(h, i) || (Injected(h, i) != [] && p == Place(h, i) + 1))
  {
    i := WovenFrom(h, Gaps(h), |h|, p);
  }

  // The entry that follows entry i in the repaired history, if nothing is injected there ...
  lemma NextKept(h: seq<Entry>, i: nat)
    requires i < |h| && Injected(h, i) == []
    ensures NextResults(Repaired(h), Place(h, i)) == NextResults(h, i)
  {
    RepairKeepsEntries(h, i);
    var p := Place(h, i);
    assert Place(h, i + 1) == p + 1;
    if i + 1 < |h| {
      RepairKeepsEntries(h, i + 1);
      NextAt(Repaired(h), p, h, i);
    } else {
      LastPlace(h);
    }
  }

  lemma LastPlace(h: seq<Entry>)
    ensures Place(h, |h|) == |Repaired(h)|
  {
  }

  lemma NextAt(r: seq<Entry>, p: nat, h: seq<Entry>, i: nat)
    requires p + 1 < |r| && i + 1 < |h| && r[p + 1] == h[i + 1]
    ensures NextResults(r, p) == NextResults(h, i)
  {
  }

  // ... and if something is.
  lemma NextPushed(h: seq<Entry>, i: nat)
    requires i + 1 < |h| && Injected(h, i) != []
    ensures Place(h, i) + 2 < |Repaired(h)| && Repaired(h)[Place(h, i) + 2] == h[i + 1]
  {
    RepairKeepsEntries(h, i);
    assert Place(h, i + 1) == Place(h, i) + 2;
    RepairKeepsEntries(h, i + 1);
  }

  // The answers of entry i's calls in the repaired history.
  lemma RepairAnswers(h: seq<Entry>, i: nat, id: string)
    requires i < |h| && id in Calls(h[i])
    ensures AnsweredAt(Repaired(h), Place(h, i), 2, id)
    ensures AnsweredAt(Repaired(h), Place(h, i), 1, id) <==> (AllAnswered(h, i) || id !in NextResults(h, i))
  {
    RepairKeepsEntries(h, i);
    NothingInjectedIffAllAnswered(h, i);
    var r, p := Repaired(h), Place(h, i);
    assert AnsweredAt(r, p, 1, id) <==> id in NextResults(r, p);
    if Injected(h, i) != [] {
      InjectedAnswers(h, i);
      if id in NextResults(h, i) {
        NextPushed(h, i);
        assert id in Results(r[p + 2]);
      } else {
        assert id in Results(r[p + 1]);
      }
    } else {
      NextKept(h, i);
      assert id in Results(r[p + 1]);
    }
  }

  // Every tool call is answered within the next two entries.
  lemma RepairedAnsweredWithinTwo(h: seq<Entry>)
    ensures AnsweredWithin(Repaired(h), 2)
  {
    var r := Repaired(h);
    forall p, id | 0 <= p < |r| && id in Calls(r[p])
      ensures AnsweredAt(r, p, 2, id)
    {
      var i := CallsOnlyOriginal(h, p, id);
      RepairAnswers(h, i, id);
    }
  }

  lemma CallsOnlyOriginal(h: seq<Entry>, p: nat, id: string) returns (i: nat)
    requires p < |Repaired(h)| && id in Calls(Repaired(h)[p])
    ensures i < |h| && p == Place(h, i) && id in Calls(h[i])
  {
    i := EveryEntryPlaced(h, p);
    RepairKeepsEntries(h, i);
    if p != Place(h, i) {
      InjectedAnswers(h, i);
    }
  }

  // An entry's answers are in the very next entry exactly when its calls were not
  // answered only in part.
  lemma PlacedAnsweredNextIff(h: seq<Entry>, i: nat)
    requires i < |h|
    ensures Place(h, i) < |Repaired(h)|
    ensures AnsweredFrom(Repaired(h), Place(h, i), 1) <==> AllOrNoneAt(h, i)
  {
    RepairKeepsEntries(h, i);
    forall id | id in Calls(h[i])
      ensures AnsweredAt(Repaired(h), Place(h, i), 1, id) <==> (AllAnswered(h, i) || id !in NextResults(h, i))
    {
      RepairAnswers(h, i, id);
    }
  }

  ghost predicate AllOrNoneOnward(h: seq<Entry>, m: nat) {
    forall i :: 0 <= i < |h| && m <= Place(h, i) ==> AllOrNoneAt(h, i)
  }

  // From position m of the repaired history on, all answers are next exactly when no
  // original entry placed there was answered only in part.
  lemma RepairedAnsweredOnwardIff(h: seq<Entry>, m: nat)
    ensures AnsweredOnward(Repaired(h), m, 1) <==> AllOrNoneOnward(h, m)
  {
    var r := Repaired(h);
    if AllOrNoneOnward(h, m) {
      forall p | m <= p < |r|
        ensures AnsweredFrom(r, p, 1)
      {
        forall id | id in Calls(r[p])
          ensures AnsweredAt(r, p, 1, id)
        {
          var i := CallsOnlyOriginal(h, p, id);
          PlacedAnsweredNextIff(h, i);
        }
      }
    }
    if AnsweredOnward(r, m, 1) {
      forall i | 0 <= i < |h| && m <= Place(h, i)
        ensures AllOrNoneAt(h, i)
      {
        PlacedAnsweredNextIff(h, i);
      }
    }
  }

  // The answers are in the very next entry exactly when no entry's calls were
  // answered only in part by its successor.
  lemma RepairedAnsweredNextIffAllOrNone(h: seq<Entry>)
    ensures AnsweredWithin(Repaired(h), 1) <==> AllOrNone(h)
  {
    RepairedAnsweredOnwardIff(h, 0);
    assert AnsweredWithin(Repaired(h), 1) <==> AnsweredOnward(Repaired(h), 0, 1);
    assert AllOrNoneOnward(h, 0) <==> AllOrNone(h);
  }

  // A repair that finds nothing to do changes nothing; it finds nothing exactly
  // when every call is answered by the very next entry.
  lemma SilentIffAnsweredNext(h: seq<Entry>)
    ensures |Repaired(h)| == |h| <==> AnsweredWithin(h, 1)
    ensures |Repaired(h)| == |h| ==> Repaired(h) == h
  {
    WovenSilent(h, Gaps(h), |h|);
    assert h[..|h|] == h;
    forall i | 0 <= i < |h|
      ensures Gaps(h)[i] == [] <==> AnsweredFrom(h, i, 1)
    {
      NothingInjectedIffAllAnswered(h, i);
      AnsweredNextIff(h, i);
    }
  }

  lemma AnsweredNextIff(h: seq<Entry>, i: nat)
    requires i < |h|
    ensures AnsweredFrom(h, i, 1) <==> AllAnswered(h, i)
  {
    forall id
      ensures AnsweredAt(h, i, 1, id) <==> id in NextResults(h, i)
    {
      if id in NextResults(h, i) { assert id in Results(h[i + 1]); }
    }
  }

  // What is answered only in part stays so: the injected results are the next ones,
  // and the real ones come later.
  lemma PartlyAnsweredStays(h: seq<Entry>, i: nat)
    requires i < |h| && !AllOrNoneAt(h, i)
    ensures Place(h, i) < |Repaired(h)| && !AllOrNoneAt(Repaired(h), Place(h, i))
  {
    var answered, orphan := PartlyAnswered(h, i);
    NextInjected(h, i);
    InjectedAnswers(h, i);
    assert answered in Calls(Repaired(h)[Place(h, i)]) && orphan in Calls(Repaired(h)[Place(h, i)]);
  }

  lemma PartlyAnswered(h: seq<Entry>, i: nat) returns (answered: string, orphan: string)
    requires i < |h| && !AllOrNoneAt(h, i)
    ensures answered in Calls(h[i]) && answered in NextResults(h, i)
    ensures orphan in Calls(h[i]) && orphan !in NextResults(h, i)
    ensures Injected(h, i) != []
  {
    NothingInjectedIffAllAnswered(h, i);
    answered :| answered in Calls(h[i]) && answered in NextResults(h, i);
    orphan :| orphan in Calls(h[i]) && orphan !in NextResults(h, i);
  }

  lemma NextInjected(h: seq<Entry>, i: nat)
    requires i < |h| && Injected(h, i) != []
    ensures Place(h, i) + 1 < |Repaired(h)| && Repaired(h)[Place(h, i)] == h[i]
    ensures NextResults(Repaired(h), Place(h, i)) == Results(Injected(h, i)[0])
  {
    RepairKeepsEntries(h, i);
  }

  ghost function RepairedTimes(h: seq<Entry>, n: nat): seq<Entry> {
    if n == 0 then h else Repaired(RepairedTimes(h, n - 1))
  }

  // So repairing again and again never settles: every time something is injected.
  lemma {:induction false} RepairNeverSettles(h: seq<Entry>, n: nat)
    requires !AllOrNone(h)
    ensures |RepairedTimes(h, n)| >= |h| + n && !AllOrNone(RepairedTimes(h, n))
  {
    if n > 0 {
      var r := RepairedTimes(h, n - 1);
      RepairNeverSettles(h, n - 1);
      RepairGrows(r);
      var i :| 0 <= i < |r| && !AllOrNoneAt(r, i);
      PartlyAnsweredStays(r, i);
    }
  }

  lemma RepairGrows(h: seq<Entry>)
    requires !AllOrNone(h)
    ensures |Repaired(h)| > |h|
  {
    WovenSilent(h, Gaps(h), |h|);
    SilentIffAnsweredNext(h);
    var i :| 0 <= i < |h| && !AllOrNoneAt(h, i);
    AnsweredNextIff(h, i);
  }

  // A second repair finds nothing exactly when the original had no partial answers.
  lemma SecondRepairSilentIffAllOrNone(h: seq<Entry>)
    ensures |Repaired(Repaired(h))| == |Repaired(h)| <==> AllOrNone(h)
    ensures AllOrNone(h) ==> Repaired(Repaired(h)) == Repaired(h)
  {
    SilentIffAnsweredNext(Repaired(h));
    RepairedAnsweredNextIffAllOrNone(h);
  }
}
