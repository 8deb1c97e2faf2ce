// What sanitizing and compacting a session keep (cortex/sanitize.go,
// cortex/compact.go).
module SanitizeTheorems {
  import opened Wrappers
  import opened Transcript
  import opened ToolRepair
  import opened SessionHistory

  // ----- Compaction keeps a suffix -----

  ghost function CountedAll(es: seq<Entry>): seq<Entry> {
    seq(|es|, i requires 0 <= i < |es| => Counted(es[i]))
  }

  lemma CountedExtend(es: seq<Entry>, j: nat)
    requires es != [] && j <= |es| - 1
    ensures CountedAll(es[..|es| - 1])[j..] + [Counted(es[|es| - 1])] == CountedAll(es)[j..]
  {
    assert CountedAll(es) == CountedAll(es[..|es| - 1]) + [Counted(es[|es| - 1])];
  }

  // Appending one by one leaves a suffix, never an empty one.
  lemma {:induction false} AppendedIsSuffix(es: seq<Entry>, maxTokens: int) returns (k: nat)
    ensures k <= |es| && AppendedAll([], es, maxTokens) == CountedAll(es)[k..]
    ensures es != [] ==> k < |es|
    ensures maxTokens <= 0 ==> k == 0
  {
    if es == [] {
      k := 0;
    } else {
      var n := |es| - 1;
      var j := AppendedIsSuffix(es[..n], maxTokens);
      var h := AppendedAll([], es[..n], maxTokens) + [Counted(es[n])];
      CountedExtend(es, j);
      if maxTokens > 0 {
        var t := TrimmedIsLongestFit(h, maxTokens);
        k := j + t;
        assert h[t..] == CountedAll(es)[k..];
      } else {
        k := j;
      }
    }
  }

  // Unless a count is negative, that is the longest suffix within budget.
  lemma {:induction false} AppendedIsLongestFit(es: seq<Entry>, maxTokens: int)
    requires forall e :: e in es ==> e.tokenCount >= 0
    ensures AppendedAll([], es, maxTokens) == Trimmed(CountedAll(es), maxTokens)
  {
    if es != [] {
      var n := |es| - 1;
      assert es[n] in es;
      AppendedIsLongestFit(es[..n], maxTokens);
      TrimmedAppend(CountedAll(es[..n]), Counted(es[n]), maxTokens);
      CountedExtend(es, 0);
      assert CountedAll(es[..n])[0..] == CountedAll(es[..n]) && CountedAll(es)[0..] == CountedAll(es);
    }
  }

  lemma {:induction false} TrimmedAppend(h: seq<Entry>, e: Entry, maxTokens: int)
    requires e.tokenCount >= 0
    ensures Trimmed(Trimmed(h, maxTokens) + [e], maxTokens) == Trimmed(h + [e], maxTokens)
  {
    if maxTokens > 0 && Total(h) > maxTokens && |h| > 1 {
      assert (h + [e])[..|h|] == h && (h + [e])[1..] == h[1..] + [e];
      TrimmedAppend(h[1..], e, maxTokens);
    }
  }

  // The position from which compaction keeps the entries of a history.
  ghost function KeptPosition(h: seq<Entry>, keepRecent: nat, maxTokens: int): (m: nat)
    ensures m <= |h|
  {
    var c := |Compacted(h, keepRecent, maxTokens)|;
    if |h| <= keepRecent then 0
    else if c < keepRecent then |h| - c
    else |h| - keepRecent
  }

  // That is the first recent entry, or, with a budget, where the longest suffix of the
  // summary and the recent entries within it begins, if that is later.
  lemma KeptPositionIsLongestFit(h: seq<Entry>, keepRecent: nat, maxTokens: int) returns (k: nat)
    requires keepRecent < |h| && forall e :: e in h ==> e.tokenCount >= 0
    ensures var counted := CountedAll(Kept(h, keepRecent));
      && k <= |counted|
      && (maxTokens <= 0 ==> k == 0)
      && (maxTokens > 0 ==> (Total(counted[k..]) <= maxTokens || k == |counted| - 1))
      && (maxTokens > 0 ==> forall j :: 0 <= j < k ==> Total(counted[j..]) > maxTokens)
      && KeptPosition(h, keepRecent, maxTokens) ==
        |h| - (if |counted| - k < keepRecent then |counted| - k else keepRecent)
  {
    var kept := Kept(h, keepRecent);
    AppendedIsLongestFit(kept, maxTokens);
    k := 0;
    if maxTokens > 0 {
      k := TrimmedIsLongestFit(CountedAll(kept), maxTokens);
    }
  }

  // A compacted history is the history from there on, after a summary at most and with
  // the tokens counted.
  lemma CompactedIsTail(h: seq<Entry>, keepRecent: nat, maxTokens: int) returns (head: seq<Entry>)
    requires keepRecent < |h|
    ensures |head| <= 1 && forall e :: e in head ==> Calls(e) == []
    ensures SamePairing(head + h[KeptPosition(h, keepRecent, maxTokens)..], Compacted(h, keepRecent, maxTokens))
    ensures |Compacted(h, keepRecent, maxTokens)| <= keepRecent + 1
    ensures maxTokens <= 0 ==> KeptPosition(h, keepRecent, maxTokens) == |h| - keepRecent
  {
    var kept := Kept(h, keepRecent);
    var summary := KeptIsHeaded(h, keepRecent);
    var k := AppendedIsSuffix(kept, maxTokens);
    CountedSuffixPairs(kept, k);
    head := if k == 0 then summary else [];
    HeadedSuffix(summary, h, |h| - keepRecent, k);
    assert |Compacted(h, keepRecent, maxTokens)| == |summary| + keepRecent - k;
  }

  lemma KeptIsHeaded(h: seq<Entry>, keepRecent: nat) returns (summary: seq<Entry>)
    requires keepRecent <= |h|
    ensures |summary| <= 1 && (forall e :: e in summary ==> Calls(e) == [])
    ensures Kept(h, keepRecent) == summary + h[|h| - keepRecent..]
  {
    var parts := SummaryParts(h[..|h| - keepRecent]);
    summary := if |parts| > 0 then [SummaryEntry(parts)] else [];
  }

  lemma HeadedSuffix(head: seq<Entry>, h: seq<Entry>, n: nat, k: nat)
    requires n <= |h| && |head| <= 1 && k <= |head| + |h| - n
    ensures (head + h[n..])[k..] == (if k == 0 then head else []) + h[if k <= |head| then n else n + k - |head|..]
  {
  }

  lemma CountedSuffixPairs(es: seq<Entry>, k: nat)
    requires k <= |es|
    ensures |CountedAll(es)[k..]| == |es| - k && SamePairing(es[k..], CountedAll(es)[k..])
  {
  }

  // An entry without calls before a suffix of a history changes nothing for the suffix.
  lemma HeadedAnsweredIff(head: seq<Entry>, h: seq<Entry>, n: nat, d: nat)
    requires n <= |h| && |head| <= 1 && forall e :: e in head ==> Calls(e) == []
    ensures AnsweredWithin(head + h[n..], d) <==> AnsweredOnward(h, n, d)
    ensures AllOrNone(head + h[n..]) <==> AllOrNoneFrom(h, n)
  {
    SuffixAnsweredIff(h, n, d);
    SuffixAllOrNoneIff(h, n);
    if head == [] {
      assert head + h[n..] == h[n..];
    } else {
      assert head == [head[0]];
      PrependAnsweredIff(head[0], h[n..], d);
      PrependAllOrNoneIff(head[0], h[n..]);
    }
  }

  // A compacted history is answered, and has nothing answered only in part, exactly if
  // that is so of the history it comes from, from the first kept entry on.
  lemma CompactedAnsweredIff(h: seq<Entry>, keepRecent: nat, maxTokens: int, d: nat)
    ensures AnsweredWithin(Compacted(h, keepRecent, maxTokens), d) <==>
            AnsweredOnward(h, KeptPosition(h, keepRecent, maxTokens), d)
    ensures AllOrNone(Compacted(h, keepRecent, maxTokens)) <==> AllOrNoneFrom(h, KeptPosition(h, keepRecent, maxTokens))
    ensures |h| > keepRecent ==> |Compacted(h, keepRecent, maxTokens)| <= keepRecent + 1
    ensures |h| > keepRecent && maxTokens <= 0 ==> KeptPosition(h, keepRecent, maxTokens) == |h| - keepRecent
  {
    if |h| > keepRecent {
      var head := CompactedIsTail(h, keepRecent, maxTokens);
      var m := KeptPosition(h, keepRecent, maxTokens);
      SamePairingAnsweredIff(head + h[m..], Compacted(h, keepRecent, maxTokens), d);
      SamePairingAllOrNoneIff(head + h[m..], Compacted(h, keepRecent, maxTokens));
      HeadedAnsweredIff(head, h, m, d);
    } else {
      OnwardFromStart(h, d);
    }
  }

  lemma OnwardFromStart(h: seq<Entry>, d: nat)
    ensures AnsweredWithin(h, d) <==> AnsweredOnward(h, 0, d)
    ensures AllOrNone(h) <==> AllOrNoneFrom(h, 0)
  {
  }

  // So compaction neither loses an answer of what it keeps nor keeps too much.
  lemma CompactedStaysAnswered(h: seq<Entry>, keepRecent: nat, maxTokens: int, d: nat)
    requires AnsweredWithin(h, d)
    ensures AnsweredWithin(Compacted(h, keepRecent, maxTokens), d)
    ensures |h| > keepRecent ==> |Compacted(h, keepRecent, maxTokens)| <= keepRecent + 1
  {
    CompactedAnsweredIff(h, keepRecent, maxTokens, d);
  }

  // A seeded session keeps the answers of the entries it copies, and copies them all.
  lemma SeedStaysAnswered(h: seq<Entry>, summary: string, keepRecent: int, d: nat)
    requires AnsweredWithin(h, d)
    ensures AnsweredWithin(AppendedAll([], SeedEntries(h, summary, keepRecent), 0), d)
    ensures |AppendedAll([], SeedEntries(h, summary, keepRecent), 0)| == |SeedEntries(h, summary, keepRecent)|
  {
    var seed := SeedEntries(h, summary, keepRecent);
    SeedEntriesAnswered(h, summary, keepRecent, d);
    SamePairingAnsweredIff(seed, CountedAll(seed), d);
    var k := AppendedIsSuffix(seed, 0);
    assert CountedAll(seed)[0..] == CountedAll(seed);
  }

  lemma SeedEntriesAnswered(h: seq<Entry>, summary: string, keepRecent: int, d: nat)
    requires AnsweredWithin(h, d)
    ensures AnsweredWithin(SeedEntries(h, summary, keepRecent), d)
  {
    var n := if 0 < keepRecent < |h| then |h| - keepRecent else 0;
    var head := if summary == "" then [] else [Entry(ROLE_USER, "[Session context]\n" + summary, [], 0)];
    assert h[0..] == h;
    assert head + h[n..] == SeedEntries(h, summary, keepRecent);
    HeadedAnsweredIff(head, h, n, d);
  }

  // ----- Input repair leaves calls and results alone -----

  lemma {:induction false} FixedCalls(blocks: seq<Block>, fixed: seq<Block>)
    requires |fixed| == |blocks| && forall i :: 0 <= i < |blocks| ==> fixed[i] == FixedBlock(blocks[i])
    ensures CallIds(fixed) == CallIds(blocks)
  {
    if blocks != [] {
      FixedCalls(blocks[..|blocks| - 1], fixed[..|blocks| - 1]);
    }
  }

  lemma FixedSamePairing(h: seq<Entry>)
    ensures SamePairing(h, FixedAll(h))
  {
    forall i | 0 <= i < |h|
      ensures Calls(h[i]) == Calls(FixedAll(h)[i]) && Results(h[i]) == Results(FixedAll(h)[i])
    {
      var b, f := h[i].blocks, FixedEntry(h[i]).blocks;
      FixedCalls(b, f);
      FixedResults(h[i]);
    }
  }

  lemma FixedResults(e: Entry)
    ensures Results(FixedEntry(e)) == Results(e)
  {
    var b, f := e.blocks, FixedEntry(e).blocks;
    forall id
      ensures id in Results(FixedEntry(e)) <==> id in Results(e)
    {
      if id in Results(e) {
        var x :| x in b && x.IsResult() && x.toolResult.value.toolCallID == id;
        var k :| 0 <= k < |b| && b[k] == x;
        assert f[k] in f && f[k].IsResult() && f[k].toolResult == x.toolResult;
      }
      if id in Results(FixedEntry(e)) {
        var x :| x in f && x.IsResult() && x.toolResult.value.toolCallID == id;
        var k :| 0 <= k < |f| && f[k] == x;
        assert b[k] in b && b[k].IsResult() && b[k].toolResult == x.toolResult;
      }
    }
  }

  // ----- No corrupt input is left -----

  ghost predicate Clean(e: Entry) {
    forall b :: b in e.blocks ==> !Corrupt(b)
  }

  lemma CleanMeansNoCorrupt(h: seq<Entry>)
    requires forall e :: e in h ==> Clean(e)
    ensures !HasCorrupt(h)
  {
    forall i, j | 0 <= i < |h| && 0 <= j < |h[i].blocks|
      ensures !Corrupt(h[i].blocks[j])
    {
      assert h[i] in h && h[i].blocks[j] in h[i].blocks;
    }
  }

  lemma RepairedClean(h: seq<Entry>, e: Entry)
    requires (forall x :: x in h ==> Clean(x)) && e in Repaired(h)
    ensures Clean(e)
  {
    var p :| 0 <= p < |Repaired(h)| && Repaired(h)[p] == e;
    var i := EveryEntryPlaced(h, p);
    RepairKeepsEntries(h, i);
    if p != Place(h, i) {
      OrphanIds(Calls(h[i]), NextResults(h, i));
    }
  }

  lemma KeptClean(h: seq<Entry>, keepRecent: nat, e: Entry)
    requires keepRecent <= |h| && (forall x :: x in h ==> Clean(x)) && e in Kept(h, keepRecent)
    ensures Clean(e)
  {
  }

  lemma CountedFrom(es: seq<Entry>, k: nat, e: Entry) returns (x: Entry)
    requires k <= |es| && e in CountedAll(es)[k..]
    ensures x in es && e.blocks == x.blocks
  {
    var p :| 0 <= p < |CountedAll(es)[k..]| && CountedAll(es)[k..][p] == e;
    x := es[k + p];
    assert e == Counted(x);
  }

  lemma CompactedClean(h: seq<Entry>, keepRecent: nat, maxTokens: int, e: Entry)
    requires (forall x :: x in h ==> Clean(x)) && e in Compacted(h, keepRecent, maxTokens)
    ensures Clean(e)
  {
    if |h| > keepRecent {
      var kept := Kept(h, keepRecent);
      var k := AppendedIsSuffix(kept, maxTokens);
      var x := CountedFrom(kept, k, e);
      KeptClean(h, keepRecent, x);
    }
  }

  lemma SanitizedClean(h: seq<Entry>, maxTokens: int)
    ensures !HasCorrupt(Sanitized(h, maxTokens))
  {
    var f := FixedAll(h);
    forall x | x in f
      ensures Clean(x)
    {
      var i :| 0 <= i < |f| && f[i] == x;
    }
    var r := Repaired(f);
    forall x | x in r
      ensures Clean(x)
    {
      RepairedClean(f, x);
    }
    forall x | x in Sanitized(h, maxTokens)
      ensures Clean(x)
    {
      if |r| > MAX_LOAD_ENTRIES {
        CompactedClean(r, KEEP_RECENT, maxTokens, x);
      }
    }
    CleanMeansNoCorrupt(Sanitized(h, maxTokens));
  }

  // ----- The promises of Sanitize -----

  // Every tool call of a sanitized session is answered within two entries.
  lemma SanitizedAnsweredWithinTwo(h: seq<Entry>, maxTokens: int)
    ensures AnsweredWithin(Sanitized(h, maxTokens), 2)
    ensures |Sanitized(h, maxTokens)| <= MAX_LOAD_ENTRIES
  {
    var r := Repaired(FixedAll(h));
    RepairedAnsweredWithinTwo(FixedAll(h));
    CompactedStaysAnswered(r, KEEP_RECENT, maxTokens, 2);
  }

  // Of a clean history of loadable size, Sanitize reports a repair exactly if
  // some call is not answered in the very next entry.
  lemma ReportsIffUnanswered(s: seq<Entry>)
    requires |s| <= MAX_LOAD_ENTRIES
    ensures !ReportsRepair(s) <==> !HasCorrupt(s) && AnsweredWithin(s, 1)
  {
    FixedSamePairing(s);
    SilentIffAnsweredNext(FixedAll(s));
    SamePairingAnsweredIff(s, FixedAll(s), 1);
  }

  // The position in the repaired history from which Sanitize keeps the entries.
  ghost function KeptFrom(h: seq<Entry>, maxTokens: int): nat {
    var r := Repaired(FixedAll(h));
    if |r| > MAX_LOAD_ENTRIES then KeptPosition(r, KEEP_RECENT, maxTokens) else 0
  }

  // No original entry that was kept was answered only in part by its successor.
  ghost predicate KeptAllOrNone(h: seq<Entry>, maxTokens: int) {
    forall i :: 0 <= i < |h| && KeptFrom(h, maxTokens) <= Place(FixedAll(h), i) ==> AllOrNoneAt(h, i)
  }

  // The answers of a sanitized history are in the very next entry, and a second
  // Sanitize reports nothing, exactly if no entry that was kept was answered only in
  // part; all entries are kept unless the repaired history is too long to load.
  lemma SanitizeSettlesIff(h: seq<Entry>, maxTokens: int)
    ensures AnsweredWithin(Sanitized(h, maxTokens), 1) <==> KeptAllOrNone(h, maxTokens)
    ensures !ReportsRepair(Sanitized(h, maxTokens)) <==> KeptAllOrNone(h, maxTokens)
    ensures |Repaired(FixedAll(h))| <= MAX_LOAD_ENTRIES ==> (KeptAllOrNone(h, maxTokens) <==> AllOrNone(h))
    ensures |Repaired(FixedAll(h))| > MAX_LOAD_ENTRIES && maxTokens <= 0 ==>
              KeptFrom(h, maxTokens) == |Repaired(FixedAll(h))| - KEEP_RECENT
  {
    var f, m := FixedAll(h), KeptFrom(h, maxTokens);
    CompactedAnsweredIff(Repaired(f), KEEP_RECENT, maxTokens, 1);
    OnwardFromStart(Repaired(f), 1);
    RepairedAnsweredOnwardIff(f, m);
    FixedSamePairing(h);
    forall i | 0 <= i < |h|
      ensures AllOrNoneAt(h, i) <==> AllOrNoneAt(f, i)
    {
      SamePairingAllOrNone(h, f, i);
    }
    SanitizedAnsweredWithinTwo(h, maxTokens);
    ReportsIffUnanswered(Sanitized(h, maxTokens));
    SanitizedClean(h, maxTokens);
  }

  // In particular if every entry's calls were all answered or all unanswered by its successor.
  lemma SanitizeSettles(h: seq<Entry>, maxTokens: int)
    requires AllOrNone(h)
    ensures AnsweredWithin(Sanitized(h, maxTokens), 1)
    ensures !ReportsRepair(Sanitized(h, maxTokens))
  {
    SanitizeSettlesIff(h, maxTokens);
  }

  // A sanitized history has nothing answered only in part exactly under the same
  // condition: what was answered only in part and is kept stays so.
  lemma SanitizedAllOrNoneIff(h: seq<Entry>, maxTokens: int)
    ensures AllOrNone(Sanitized(h, maxTokens)) <==> KeptAllOrNone(h, maxTokens)
  {
    var f, m, r := FixedAll(h), KeptFrom(h, maxTokens), Repaired(FixedAll(h));
    CompactedAnsweredIff(r, KEEP_RECENT, maxTokens, 1);
    OnwardFromStart(r, 1);
    FixedSamePairing(h);
    if KeptAllOrNone(h, maxTokens) {
      SanitizeSettlesIff(h, maxTokens);
      NextMeansAllOrNone(Sanitized(h, maxTokens));
    } else {
      var i :| 0 <= i < |h| && m <= Place(f, i) && !AllOrNoneAt(h, i);
      SamePairingAllOrNone(h, f, i);
      PartlyAnsweredStays(f, i);
      assert !AllOrNoneFrom(r, m);
    }
  }

  lemma NextMeansAllOrNone(h: seq<Entry>)
    requires AnsweredWithin(h, 1)
    ensures AllOrNone(h)
  {
    forall i | 0 <= i < |h|
      ensures AllOrNoneAt(h, i)
    {
      AnsweredNextIff(h, i);
    }
  }

  // So without compaction a history with a partly answered entry never settles: each
  // Sanitize leaves such an entry, and a longer history.
  lemma SanitizeNeverSettles(h: seq<Entry>, maxTokens: int)
    requires !AllOrNone(h) && |Repaired(FixedAll(h))| <= MAX_LOAD_ENTRIES
    ensures !AllOrNone(Sanitized(h, maxTokens)) && |Sanitized(h, maxTokens)| > |h|
  {
    SanitizeSettlesIff(h, maxTokens);
    SanitizedAllOrNoneIff(h, maxTokens);
    FixedSamePairing(h);
    SamePairingAllOrNoneIff(h, FixedAll(h));
    RepairGrows(FixedAll(h));
  }

  // One entry with two calls of which its successor answers one: the real result
  // ends up two entries later.
  lemma PartialAnswerIsPushed()
    ensures var call := (id: string) => Block(TOOL_USE, "", Some(ToolCall(id, "t", Some("{}"))), None);
            var h := [Entry("assistant", "", [call("a"), call("b")], 1),
                      Entry("user", "", [Block(TOOL_RESULT, "", None, Some(ToolResult("a", "x", false)))], 1)];
            !AllOrNone(h) && !AnsweredWithin(Repaired(h), 1)
  {
    var call := (id: string) => Block(TOOL_USE, "", Some(ToolCall(id, "t", Some("{}"))), None);
    var calls := [call("a"), call("b")];
    var result := Block(TOOL_RESULT, "", None, Some(ToolResult("a", "x", false)));
    var h := [Entry("assistant", "", calls, 1), Entry("user", "", [result], 1)];
    assert calls[..1] == [call("a")] && calls[..1][..0] == [];
    assert CallIds(calls[..1]) == ["a"];
    assert CallIds(calls) == ["a", "b"];
    assert result in h[1].blocks && result.IsResult();
    assert NextResults(h, 0) == {"a"};
    assert "a" in Calls(h[0]) && "b" in Calls(h[0]);
    assert !AllOrNoneAt(h, 0);
    RepairedAnsweredNextIffAllOrNone(h);
  }
}
