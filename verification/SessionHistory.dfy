// Session history with a token budget, its sanitizing and compaction
// (cortex/history.go, cortex/sanitize.go, cortex/compact.go).
module SessionHistory {
  import opened Wrappers
  import opened Transcript
  import opened ToolRepair

  // ----- Token budget -----

  function TextOf(blocks: seq<Block>): string {
    if blocks == [] then "" else
      var n := |blocks| - 1;
      TextOf(blocks[..n]) + if blocks[n].kind == TEXT then blocks[n].text else ""
  }

  function TextContent(e: Entry): string {
    if |e.blocks| == 0 then e.content else TextOf(e.blocks)
  }

  const CHARS_PER_TOKEN := 4

  function EstimateTokens(text: string): (r: int)
    ensures |text| < CHARS_PER_TOKEN ==> r == 1
    ensures |text| >= CHARS_PER_TOKEN ==> CHARS_PER_TOKEN * r <= |text| < CHARS_PER_TOKEN * (r + 1)
  {
    if |text| == 0 then 1
    else if |text| / CHARS_PER_TOKEN == 0 then 1
    else |text| / CHARS_PER_TOKEN
  }

  function Counted(e: Entry): Entry {
    if e.tokenCount == 0 then e.(tokenCount := EstimateTokens(TextContent(e))) else e
  }

  ghost function Total(h: seq<Entry>): int {
    if h == [] then 0 else Total(h[..|h| - 1]) + h[|h| - 1].tokenCount
  }

  // What is left of a history over budget.
  ghost function Trimmed(h: seq<Entry>, maxTokens: int): seq<Entry> {
    if maxTokens <= 0 || Total(h) <= maxTokens || |h| <= 1 then h else Trimmed(h[1..], maxTokens)
  }

  // The longest suffix within budget, or the last entry alone if even it is over.
  lemma {:induction false} TrimmedIsLongestFit(h: seq<Entry>, maxTokens: int) returns (k: nat)
    requires maxTokens > 0
    ensures k <= |h| && Trimmed(h, maxTokens) == h[k..]
    ensures Total(h[k..]) <= maxTokens || k == |h| - 1
    ensures forall j :: 0 <= j < k ==> Total(h[j..]) > maxTokens
    ensures h != [] ==> k < |h|
  {
    assert h[0..] == h;
    if Total(h) <= maxTokens || |h| <= 1 {
      k := 0;
    } else {
      var k' := TrimmedIsLongestFit(h[1..], maxTokens);
      k := k' + 1;
      assert h[1..][k'..] == h[k..];
      forall j | 0 <= j < k
        ensures Total(h[j..]) > maxTokens
      {
        if j > 0 {
          assert h[1..][j - 1..] == h[j..];
        }
      }
    }
  }

  ghost function AppendedTo(h: seq<Entry>, e: Entry, maxTokens: int): seq<Entry> {
    Trimmed(h + [Counted(e)], maxTokens)
  }

  ghost function AppendedAll(h: seq<Entry>, es: seq<Entry>, maxTokens: int): seq<Entry> {
    if es == [] then h
    else AppendedTo(AppendedAll(h, es[..|es| - 1], maxTokens), es[|es| - 1], maxTokens)
  }

  class History {
    var entries: seq<Entry>
    const maxTokens: int

    constructor (maxTokens: int)
      ensures this.maxTokens == maxTokens && entries == []
    {
      this.maxTokens, entries := maxTokens, [];
    }

    method TotalTokens() returns (total: int)
      ensures total == Total(entries)
    {
      total := 0;
      for i := 0 to |entries|
        invariant total == Total(entries[..i])
      {
        assert entries[..i + 1][..i] == entries[..i];
        total := total + entries[i].tokenCount;
      }
      assert entries[..|entries|] == entries;
    }

    method Append(e: Entry)
      modifies this`entries
      ensures entries == AppendedTo(old(entries), e, maxTokens)
    {
      entries := entries + [Counted(e)];
      TrimIfNeeded();
    }

    method TrimIfNeeded()
      modifies this`entries
      ensures entries == Trimmed(old(entries), maxTokens)
    {
      if maxTokens <= 0 {
        return;
      }
      var total := TotalTokens();
      while total > maxTokens && |entries| > 1
        invariant total == Total(entries) && Trimmed(entries, maxTokens) == Trimmed(old(entries), maxTokens)
        decreases |entries|
      {
        entries := entries[1..];
        total := TotalTokens();
      }
    }

    method Clear()
      modifies this`entries
      ensures entries == []
    {
      entries := [];
    }

    method SetEntries(es: seq<Entry>)
      modifies this`entries
      ensures entries == es
    {
      entries := es;
    }

    method AppendAll(es: seq<Entry>)
      modifies this`entries
      ensures entries == AppendedAll(old(entries), es, maxTokens)
    {
      for i := 0 to |es|
        invariant entries == AppendedAll(old(entries), es[..i], maxTokens)
      {
        assert es[..i + 1][..i] == es[..i];
        Append(es[i]);
      }
      assert es[..|es|] == es;
    }
  }

  // ----- Compaction -----

  const MAX_LINE := 60

  // The text up to the first newline.
  function FirstLine(s: string): (r: string)
    ensures r <= s && '\n' !in r
    ensures r == s || (|r| < |s| && s[|r|] == '\n')
  {
    if s == [] || s[0] == '\n' then []
    else [s[0]] + FirstLine(s[1..])
  }

  function Abridged(s: string): string {
    var first := FirstLine(s);
    if |first| > MAX_LINE then first[..MAX_LINE] + "..." else first
  }

  // One line per old entry that has any text.
  ghost function SummaryParts(earlier: seq<Entry>): seq<string> {
    if earlier == [] then [] else
      var e := earlier[|earlier| - 1];
      SummaryParts(earlier[..|earlier| - 1]) +
        if Abridged(e.content) == "" then [] else [e.role + ": " + Abridged(e.content)]
  }

  function Join(parts: seq<string>): string {
    if parts == [] then ""
    else if |parts| == 1 then parts[0]
    else parts[0] + "\n" + Join(parts[1..])
  }

  function SummaryEntry(parts: seq<string>): Entry {
    Entry(ROLE_USER, "[Compacted history]\n" + Join(parts), [], 0)
  }

  function Headed(parts: seq<string>, recent: seq<Entry>): seq<Entry> {
    if |parts| > 0 then [SummaryEntry(parts)] + recent else recent
  }

  // What Compact re-appends to the cleared history.
  ghost function Kept(h: seq<Entry>, keepRecent: nat): seq<Entry>
    requires keepRecent <= |h|
  {
    var k := |h| - keepRecent;
    Headed(SummaryParts(h[..k]), h[k..])
  }

  ghost function Compacted(h: seq<Entry>, keepRecent: nat, maxTokens: int): seq<Entry> {
    if |h| <= keepRecent then h else AppendedAll([], Kept(h, keepRecent), maxTokens)
  }

  lemma SummaryNext(h: seq<Entry>, i: nat)
    requires i < |h|
    ensures SummaryParts(h[..i + 1]) ==
      SummaryParts(h[..i]) + if Abridged(h[i].content) == "" then [] else [h[i].role + ": " + Abridged(h[i].content)]
  {
    assert h[..i + 1][..i] == h[..i];
  }

  method Summarize(entries: seq<Entry>) returns (parts: seq<string>)
    ensures parts == SummaryParts(entries)
  {
    parts := [];
    for i := 0 to |entries|
      invariant parts == SummaryParts(entries[..i])
    {
      SummaryNext(entries, i);
      var first := Abridged(entries[i].content);
      if first != "" {
        parts := parts + [entries[i].role + ": " + first];
      }
    }
    assert entries[..|entries|] == entries;
  }

  method Compact(history: History, keepRecent: nat) returns (before: nat, after: nat)
    modifies history`entries
    ensures history.entries == Compacted(old(history.entries), keepRecent, history.maxTokens)
    ensures before == |old(history.entries)| && after == |history.entries|
  {
    before := |history.entries|;
    if before <= keepRecent {
      return before, before;
    }
    var entries := history.entries;
    var keepFrom := |entries| - keepRecent;
    var recent := entries[keepFrom..];
    var parts := Summarize(entries[..keepFrom]);
    history.Clear();
    history.AppendAll(Headed(parts, recent));
    after := |history.entries|;
  }

  // What SeedSession copies into a fresh history without a budget.
  ghost function SeedEntries(h: seq<Entry>, summary: string, keepRecent: int): seq<Entry> {
    (if summary == "" then [] else [Entry(ROLE_USER, "[Session context]\n" + summary, [], 0)])
    + (if 0 < keepRecent < |h| then h[|h| - keepRecent..] else h)
  }

  method SeedSession(earlier: History, summary: string, keepRecent: int) returns (seed: History)
    ensures fresh(seed) && seed.maxTokens == 0
    ensures seed.entries == AppendedAll([], SeedEntries(earlier.entries, summary, keepRecent), 0)
  {
    seed := new History(0);
    var entries := earlier.entries;
    if 0 < keepRecent < |entries| {
      entries := entries[|entries| - keepRecent..];
    }
    if summary != "" {
      entries := [Entry(ROLE_USER, "[Session context]\n" + summary, [], 0)] + entries;
    }
    assert entries == SeedEntries(earlier.entries, summary, keepRecent);
    seed.AppendAll(entries);
  }

  // ----- The summary text -----

  function SummaryLine(e: Entry): string {
    e.role + ": " + TextContent(e) + "\n"
  }

  // The lines of the leading entries, appended to `out` while they fit.
  ghost function SummaryText(entries: seq<Entry>, out: string, maxChars: int): string
    decreases |entries|
  {
    if entries == [] || |out| + |SummaryLine(entries[0])| > maxChars then out
    else SummaryText(entries[1..], out + SummaryLine(entries[0]), maxChars)
  }

  method ExtractSummaryText(entries: seq<Entry>, maxChars: int) returns (text: string)
    ensures text == SummaryText(entries, "", maxChars)
  {
    text := "";
    for i := 0 to |entries|
      invariant SummaryText(entries[i..], text, maxChars) == SummaryText(entries, "", maxChars)
    {
      var line := SummaryLine(entries[i]);
      assert entries[i..][1..] == entries[i + 1..];
      if |text| + |line| > maxChars {
        break;
      }
      text := text + line;
    }
  }

  ghost function Lines(entries: seq<Entry>): string {
    if entries == [] then "" else SummaryLine(entries[0]) + Lines(entries[1..])
  }

  lemma LinesFirst(entries: seq<Entry>, k: nat)
    requires k < |entries|
    ensures Lines(entries[..k + 1]) == SummaryLine(entries[0]) + Lines(entries[1..][..k])
  {
    assert entries[..k + 1][1..] == entries[1..][..k];
  }

  lemma {:induction false} SummaryAppends(entries: seq<Entry>, out: string, maxChars: int) returns (k: nat)
    ensures k <= |entries| && SummaryText(entries, out, maxChars) == out + Lines(entries[..k])
    ensures k > 0 ==> |out| + |Lines(entries[..k])| <= maxChars
    ensures k < |entries| ==> |out| + |Lines(entries[..k + 1])| > maxChars
    decreases |entries|
  {
    if entries == [] {
      k := 0;
    } else {
      LinesFirst(entries, 0);
      if |out| + |SummaryLine(entries[0])| > maxChars {
        k := 0;
      } else {
        var j := SummaryAppends(entries[1..], out + SummaryLine(entries[0]), maxChars);
        LinesFirst(entries, j);
        if j + 1 < |entries| {
          LinesFirst(entries, j + 1);
        }
        k := j + 1;
      }
    }
  }

  // The summary is made of whole lines, of as many leading entries as fit.
  lemma SummaryIsLongestFit(entries: seq<Entry>, maxChars: int) returns (k: nat)
    ensures k <= |entries| && SummaryText(entries, "", maxChars) == Lines(entries[..k])
    ensures k > 0 ==> |Lines(entries[..k])| <= maxChars
    ensures k < |entries| ==> |Lines(entries[..k + 1])| > maxChars
  {
    k := SummaryAppends(entries, "", maxChars);
  }

  // ----- Sanitizing -----

  const MAX_LOAD_ENTRIES := 200
  const KEEP_RECENT := 4

  predicate Corrupt(b: Block) {
    b.IsCall() && (b.toolCall.value.input == None || b.toolCall.value.input == Some("null"))
  }

  function FixedBlock(b: Block): Block {
    if Corrupt(b) then b.(toolCall := Some(b.toolCall.value.(input := Some("{}")))) else b
  }

  ghost function FixedEntry(e: Entry): Entry {
    e.(blocks := seq(|e.blocks|, i requires 0 <= i < |e.blocks| => FixedBlock(e.blocks[i])))
  }

  ghost function FixedAll(h: seq<Entry>): seq<Entry> {
    seq(|h|, i requires 0 <= i < |h| => FixedEntry(h[i]))
  }

  ghost predicate HasCorrupt(h: seq<Entry>) {
    exists i, j :: 0 <= i < |h| && 0 <= j < |h[i].blocks| && Corrupt(h[i].blocks[j])
  }

  // The history that Sanitize leaves.
  ghost function Sanitized(h: seq<Entry>, maxTokens: int): seq<Entry> {
    var r := Repaired(FixedAll(h));
    if |r| > MAX_LOAD_ENTRIES then Compacted(r, KEEP_RECENT, maxTokens) else r
  }

  // What Sanitize returns: whether anything was repaired.
  ghost predicate ReportsRepair(h: seq<Entry>) {
    HasCorrupt(h) || |Repaired(FixedAll(h))| != |h| || |Repaired(FixedAll(h))| > MAX_LOAD_ENTRIES
  }

  method FixBlocks(blocks: seq<Block>) returns (fixed: seq<Block>, repaired: bool)
    ensures |fixed| == |blocks| && forall j :: 0 <= j < |blocks| ==> fixed[j] == FixedBlock(blocks[j])
    ensures repaired <==> exists j :: 0 <= j < |blocks| && Corrupt(blocks[j])
  {
    fixed, repaired := blocks, false;
    for j := 0 to |blocks|
      invariant |fixed| == |blocks|
      invariant forall k :: 0 <= k < |blocks| ==> fixed[k] == if k < j then FixedBlock(blocks[k]) else blocks[k]
      invariant repaired <==> exists k :: 0 <= k < j && Corrupt(blocks[k])
    {
      var block := fixed[j];
      if Corrupt(block) {
        fixed := fixed[j := FixedBlock(block)];
        repaired := true;
      }
    }
  }

  method FixInputs(entries: seq<Entry>) returns (fixed: seq<Entry>, repaired: bool)
    ensures fixed == FixedAll(entries) && (repaired <==> HasCorrupt(entries))
  {
    fixed, repaired := entries, false;
    for i := 0 to |entries|
      invariant |fixed| == |entries|
      invariant forall k :: 0 <= k < |entries| ==> fixed[k] == if k < i then FixedEntry(entries[k]) else entries[k]
      invariant repaired <==> HasCorrupt(entries[..i])
    {
      var blocks, any := FixBlocks(entries[i].blocks);
      assert FixedEntry(entries[i]).blocks == blocks;
      fixed := fixed[i := entries[i].(blocks := blocks)];
      ghost var part := entries[..i + 1];
      if any {
        ghost var j :| 0 <= j < |entries[i].blocks| && Corrupt(entries[i].blocks[j]);
        assert Corrupt(part[i].blocks[j]);
      }
      if HasCorrupt(entries[..i]) {
        ghost var a, b :| 0 <= a < i && 0 <= b < |entries[..i][a].blocks| && Corrupt(entries[..i][a].blocks[b]);
        assert Corrupt(part[a].blocks[b]);
      }
      if HasCorrupt(part) {
        ghost var a, b :| 0 <= a < |part| && 0 <= b < |part[a].blocks| && Corrupt(part[a].blocks[b]);
        assert a < i ==> Corrupt(entries[..i][a].blocks[b]);
      }
      repaired := repaired || any;
    }
    assert entries[..|entries|] == entries;
  }

  method CollectCalls(e: Entry) returns (ids: seq<string>)
    ensures ids == Calls(e)
  {
    ids := [];
    for j := 0 to |e.blocks|
      invariant ids == CallIds(e.blocks[..j])
    {
      assert e.blocks[..j + 1][..j] == e.blocks[..j];
      if e.blocks[j].IsCall() {
        ids := ids + [e.blocks[j].toolCall.value.id];
      }
    }
    assert e.blocks[..|e.blocks|] == e.blocks;
  }

  method CollectResults(e: Entry) returns (ids: set<string>)
    ensures ids == Results(e)
  {
    ids := {};
    for j := 0 to |e.blocks|
      invariant ids == set b | b in e.blocks[..j] && b.IsResult() :: b.toolResult.value.toolCallID
    {
      assert e.blocks[..j + 1] == e.blocks[..j] + [e.blocks[j]];
      if e.blocks[j].IsResult() {
        ids := ids + {e.blocks[j].toolResult.value.toolCallID};
      }
    }
    assert e.blocks[..|e.blocks|] == e.blocks;
  }

  method OrphanBlocks(ids: seq<string>, answered: set<string>) returns (blocks: seq<Block>)
    ensures blocks == Orphans(ids, answered)
  {
    blocks := [];
    for k := 0 to |ids|
      invariant blocks == Orphans(ids[..k], answered)
    {
      assert ids[..k + 1][..k] == ids[..k];
      if ids[k] !in answered {
        blocks := blocks + [Block(TOOL_RESULT, "", None, Some(ToolResult(ids[k], INTERRUPTED, true)))];
      }
    }
    assert ids[..|ids|] == ids;
  }

  method InjectAfter(entries: seq<Entry>, i: nat) returns (injected: seq<Entry>)
    requires i < |entries|
    ensures injected == Injected(entries, i)
  {
    var ids := CollectCalls(entries[i]);
    if |ids| == 0 {
      return [];
    }
    var answered := {};
    if i + 1 < |entries| {
      answered := CollectResults(entries[i + 1]);
    }
    var orphans := OrphanBlocks(ids, answered);
    if |orphans| > 0 {
      return [Entry(ROLE_USER, "", orphans, 0)];
    }
    return [];
  }

  method RepairOrphanedToolUse(entries: seq<Entry>) returns (result: seq<Entry>)
    ensures result == Repaired(entries)
  {
    result := [];
    ghost var gaps := Gaps(entries);
    for i := 0 to |entries|
      invariant result == Woven(entries, gaps, i)
    {
      var injected := InjectAfter(entries, i);
      result := result + [entries[i]] + injected;
    }
  }

  class Session {
    var history: History?

    constructor (history: History?)
      ensures this.history == history
    {
      this.history := history;
    }

    method Sanitize() returns (repaired: bool)
      modifies history
      ensures history == old(history)
      ensures history == null ==> !repaired
      ensures history != null ==> history.entries == Sanitized(old(history.entries), history.maxTokens)
      ensures history != null ==> (repaired <==> ReportsRepair(old(history.entries)))
    {
      if history == null {
        return false;
      }
      var entries;
      entries, repaired := FixInputs(history.entries);
      var orphanEntries := RepairOrphanedToolUse(entries);
      if |orphanEntries| != |entries| {
        repaired := true;
      }
      history.SetEntries(orphanEntries);
      if |history.entries| > MAX_LOAD_ENTRIES {
        var _, _ := Compact(history, KEEP_RECENT);
        repaired := true;
      }
    }
  }
}
