// What a history says once entries are appended to it and it is compacted, seeded or
// sanitized (cortex/history.go, cortex/compact.go, cortex/sanitize.go), without the
// functions that the methods are proved against.
module HistoryTheorems {
  import opened Wrappers
  import opened Selections
  import opened Transcript
  import opened ToolRepair
  import opened SessionHistory
  import opened SanitizeTheorems

  // ----- The text of a summary -----

  // r is the first line of s.
  ghost predicate IsFirstLine(s: string, r: string) {
    r <= s && '\n' !in r && (|r| < |s| ==> s[|r|] == '\n')
  }

  // The summary line of an entry: its role, and its first line cut to 60 bytes.
  ghost predicate IsSummaryLine(e: Entry, line: string) {
    exists first ::
      && IsFirstLine(e.content, first) && first != ""
      && line == e.role + ": " + if |first| > 60 then first[..60] + "..." else first
  }

  // Whether the text of an entry starts with something other than a newline.
  ghost predicate HasFirstLine(e: Entry) {
    e.content != "" && e.content[0] != '\n'
  }

  // Where the t-th line starts in a text of a title and lines below it.
  ghost function LineStart(title: string, lines: seq<string>, t: nat): nat
    requires t <= |lines|
  {
    if t == 0 then |title| + 1 else LineStart(title, lines, t - 1) + |lines[t - 1]| + 1
  }

  // The text is the title, and below it the lines, in order.
  ghost predicate IsListing(text: string, title: string, lines: seq<string>) {
    && |text| + 1 == LineStart(title, lines, |lines|) && title <= text
    && forall t :: 0 <= t < |lines| ==> LineAt(text, title, lines, t)
  }

  ghost predicate LineAt(text: string, title: string, lines: seq<string>, t: nat)
    requires t < |lines|
  {
    var p := LineStart(title, lines, t);
    0 < p && p + |lines[t]| <= |text| && text[p - 1] == '\n' && text[p..p + |lines[t]|] == lines[t]
  }

  lemma {:induction false} LineStartPrefix(title: string, lines: seq<string>, more: seq<string>, t: nat)
    requires t <= |lines| && lines <= more
    ensures LineStart(title, more, t) == LineStart(title, lines, t) >= |title| + 1
  {
    if t > 0 {
      LineStartPrefix(title, lines, more, t - 1);
    }
  }

  lemma {:induction false} LinesFit(title: string, lines: seq<string>, t: nat)
    requires t < |lines|
    ensures LineStart(title, lines, t) + |lines[t]| + 1 <= LineStart(title, lines, |lines|)
    decreases |lines| - t
  {
    if t + 1 < |lines| {
      LinesFit(title, lines, t + 1);
    }
  }

  lemma {:induction false} JoinAppends(lines: seq<string>, l: string)
    requires lines != []
    ensures Join(lines + [l]) == Join(lines) + "\n" + l
  {
    if |lines| > 1 {
      assert (lines + [l])[1..] == lines[1..] + [l];
      JoinAppends(lines[1..], l);
    } else {
      assert lines + [l] == [lines[0], l] && (lines + [l])[1..] == [l];
    }
  }

  lemma LineStays(title: string, text: string, lines: seq<string>, more: string, next: seq<string>, t: nat)
    requires t < |lines| && lines <= next && text <= more && LineAt(text, title, lines, t)
    ensures LineAt(more, title, next, t)
  {
    LineStartPrefix(title, lines, next, t);
    var p := LineStart(title, lines, t);
    assert more[p - 1] == text[p - 1];
    assert more[p..p + |lines[t]|] == text[p..p + |lines[t]|];
  }

  lemma ListingGrows(title: string, text: string, lines: seq<string>, l: string)
    requires IsListing(text, title, lines)
    ensures IsListing(text + "\n" + l, title, lines + [l])
  {
    var more, next, n := text + "\n" + l, lines + [l], |lines|;
    LineStartPrefix(title, lines, next, n);
    forall t | 0 <= t < |next|
      ensures LineAt(more, title, next, t)
    {
      if t < n {
        LineStays(title, text, lines, more, next, t);
      } else {
        assert more[|text| + 1..|text| + 1 + |l|] == l;
      }
    }
  }

  lemma {:induction false} JoinIsListing(title: string, lines: seq<string>)
    requires lines != []
    ensures IsListing(title + "\n" + Join(lines), title, lines)
  {
    var n := |lines| - 1;
    assert lines == lines[..n] + [lines[n]];
    if n == 0 {
      assert IsListing(title, title, []);
      ListingGrows(title, title, [], lines[0]);
      assert [] + [lines[0]] == lines;
    } else {
      JoinIsListing(title, lines[..n]);
      JoinAppends(lines[..n], lines[n]);
      ListingGrows(title, title + "\n" + Join(lines[..n]), lines[..n], lines[n]);
      assert title + "\n" + Join(lines) == (title + "\n" + Join(lines[..n])) + "\n" + lines[n];
    }
  }

  // ----- Which entries it lists -----

  // The old entries with a first line, in order, one line each.
  ghost predicate IsSummary(earlier: seq<Entry>, idx: seq<nat>, lines: seq<string>) {
    && Selects(idx, WithFirstLine(earlier)) && |lines| == |idx|
    && forall t :: 0 <= t < |idx| ==> idx[t] < |earlier| && IsSummaryLine(earlier[idx[t]], lines[t])
  }

  ghost function WithFirstLine(earlier: seq<Entry>): set<nat> {
    set i: nat | i < |earlier| && HasFirstLine(earlier[i])
  }

  lemma LineOf(e: Entry)
    ensures Abridged(e.content) != "" <==> HasFirstLine(e)
    ensures HasFirstLine(e) ==> IsSummaryLine(e, e.role + ": " + Abridged(e.content))
  {
    assert IsFirstLine(e.content, FirstLine(e.content));
  }

  lemma SummaryStays(earlier: seq<Entry>, idx: seq<nat>, lines: seq<string>, e: Entry)
    requires IsSummary(earlier, idx, lines) && !HasFirstLine(e)
    ensures IsSummary(earlier + [e], idx, lines)
  {
    assert WithFirstLine(earlier + [e]) == WithFirstLine(earlier);
  }

  lemma SummaryGrows(earlier: seq<Entry>, idx: seq<nat>, lines: seq<string>, e: Entry, l: string)
    requires IsSummary(earlier, idx, lines) && HasFirstLine(e) && IsSummaryLine(e, l)
    ensures IsSummary(earlier + [e], idx + [|earlier|], lines + [l])
  {
    SelectsNext(idx, WithFirstLine(earlier), |earlier|);
    assert WithFirstLine(earlier + [e]) == WithFirstLine(earlier) + {|earlier|};
  }

  // What the last entry adds to the parts.
  lemma PartsNext(earlier: seq<Entry>, e: Entry) returns (l: string)
    ensures HasFirstLine(e) ==> IsSummaryLine(e, l)
    ensures SummaryParts(earlier + [e]) == SummaryParts(earlier) + if HasFirstLine(e) then [l] else []
  {
    LineOf(e);
    l := e.role + ": " + Abridged(e.content);
    assert (earlier + [e])[..|earlier|] == earlier;
  }

  lemma {:induction false} PartsAreSummary(earlier: seq<Entry>) returns (idx: seq<nat>)
    ensures IsSummary(earlier, idx, SummaryParts(earlier))
  {
    if earlier == [] {
      idx := [];
      assert WithFirstLine(earlier) == {};
    } else {
      var before, e := earlier[..|earlier| - 1], earlier[|earlier| - 1];
      assert earlier == before + [e];
      idx := PartsAreSummary(before);
      var l := PartsNext(before, e);
      if HasFirstLine(e) {
        SummaryGrows(before, idx, SummaryParts(before), e, l);
        idx := idx + [|before|];
      } else {
        SummaryStays(before, idx, SummaryParts(before), e);
      }
    }
  }

  // ----- The compacted history -----

  // An entry with its tokens counted, if they were not: a quarter of its text's length.
  ghost predicate IsCounted(e: Entry, r: Entry) {
    var size := |TextContent(e)|;
    && r == e.(tokenCount := r.tokenCount)
    && r.tokenCount == if e.tokenCount != 0 then e.tokenCount else if size < 4 then 1 else size / 4
  }

  // head is the summary entry of these old entries.
  ghost predicate IsSummaryEntry(earlier: seq<Entry>, head: Entry) {
    && head.role == "user" && head.blocks == []
    && exists idx, lines :: IsSummary(earlier, idx, lines) && IsListing(head.content, "[Compacted history]", lines)
  }

  // Compaction without a budget leaves a short history alone. Otherwise it keeps the
  // last keepRecent entries, and before them a summary exactly if some earlier entry
  // has a first line: one line for each of those, in order.
  lemma CompactedSays(h: seq<Entry>, keepRecent: nat, maxTokens: int)
    requires maxTokens <= 0
    ensures |h| <= keepRecent ==> Compacted(h, keepRecent, maxTokens) == h
    ensures |h| > keepRecent ==> IsCompaction(h, |h| - keepRecent, Compacted(h, keepRecent, maxTokens))
  {
    if |h| > keepRecent {
      var kept := Kept(h, keepRecent);
      var _ := AppendedIsSuffix(kept, maxTokens);
      assert CountedAll(kept)[0..] == CountedAll(kept);
      KeptIsCompaction(h, keepRecent);
    }
  }

  lemma KeptIsCompaction(h: seq<Entry>, keepRecent: nat)
    requires keepRecent < |h|
    ensures IsCompaction(h, |h| - keepRecent, CountedAll(Kept(h, keepRecent)))
  {
    var n := |h| - keepRecent;
    var parts := SummaryParts(h[..n]);
    PartsSay(h, n);
    HeadedIsCompaction(h, n, if parts != [] then [SummaryEntry(parts)] else []);
  }

  lemma HeadedIsCompaction(h: seq<Entry>, n: nat, head: seq<Entry>)
    requires n <= |h| && |head| == (if SomeFirstLine(h, n) then 1 else 0)
    requires head != [] ==> IsSummaryEntry(h[..n], Counted(head[0]))
    ensures IsCompaction(h, n, CountedAll(head + h[n..]))
  {
    CountedTail(h, n, head + h[n..], |head|);
  }

  lemma PartsSay(h: seq<Entry>, n: nat)
    requires n <= |h|
    ensures SummaryParts(h[..n]) != [] <==> SomeFirstLine(h, n)
    ensures SummaryParts(h[..n]) != [] ==> IsSummaryEntry(h[..n], Counted(SummaryEntry(SummaryParts(h[..n]))))
  {
    var parts := SummaryParts(h[..n]);
    var idx := PartsAreSummary(h[..n]);
    SomeListed(h[..n], idx, parts);
    SomeInPrefix(h, n);
    if parts != [] {
      SummaryHead(h[..n], idx, parts);
    }
  }

  lemma SomeInPrefix(h: seq<Entry>, n: nat)
    requires n <= |h|
    ensures SomeFirstLine(h, n) <==> SomeFirstLine(h[..n], n)
  {
    assert forall i :: 0 <= i < n ==> h[..n][i] == h[i];
  }

  ghost predicate SomeFirstLine(h: seq<Entry>, n: nat)
    requires n <= |h|
  {
    exists i :: 0 <= i < n && HasFirstLine(h[i])
  }

  // r keeps the entries from position n on, after a summary of the earlier ones.
  ghost predicate IsCompaction(h: seq<Entry>, n: nat, r: seq<Entry>)
    requires n <= |h|
  {
    var k := if SomeFirstLine(h, n) then 1 else 0;
    && |r| == k + |h| - n
    && (k == 1 ==> IsSummaryEntry(h[..n], r[0]))
    && KeptCounted(h, n, r, k)
  }

  // From position k on, r is h from position n on, its tokens counted.
  ghost predicate KeptCounted(h: seq<Entry>, n: nat, r: seq<Entry>, k: nat)
    requires n <= |h| && |r| == k + |h| - n
  {
    forall i :: n <= i < |h| ==> IsCounted(h[i], r[k + i - n])
  }

  lemma CountedTail(h: seq<Entry>, n: nat, kept: seq<Entry>, k: nat)
    requires n <= |h| && k <= |kept| && kept[k..] == h[n..]
    ensures KeptCounted(h, n, CountedAll(kept), k)
  {
    forall i | n <= i < |h|
      ensures IsCounted(h[i], CountedAll(kept)[k + i - n])
    {
      assert kept[k..][i - n] == kept[k + i - n] && h[n..][i - n] == h[i];
    }
  }

  lemma SomeListed(earlier: seq<Entry>, idx: seq<nat>, lines: seq<string>)
    requires IsSummary(earlier, idx, lines)
    ensures lines != [] <==> SomeFirstLine(earlier, |earlier|)
  {
    if lines != [] {
      assert idx[0] in idx && idx[0] in WithFirstLine(earlier);
    }
    if i :| 0 <= i < |earlier| && HasFirstLine(earlier[i]) {
      assert i in WithFirstLine(earlier) && i in idx;
    }
  }

  lemma SummaryHead(earlier: seq<Entry>, idx: seq<nat>, lines: seq<string>)
    requires IsSummary(earlier, idx, lines) && lines != []
    ensures IsSummaryEntry(earlier, Counted(SummaryEntry(lines)))
  {
    JoinIsListing("[Compacted history]", lines);
    assert SummaryEntry(lines).content == "[Compacted history]" + "\n" + Join(lines) by {
      assert "[Compacted history]\n" == "[Compacted history]" + "\n";
    }
  }

  // With a budget, what is left is a suffix of that, never empty.
  lemma CompactedWithinBudget(h: seq<Entry>, keepRecent: nat, maxTokens: int) returns (k: nat)
    requires keepRecent < |h|
    ensures k <= |Compacted(h, keepRecent, 0)|
    ensures Compacted(h, keepRecent, maxTokens) == Compacted(h, keepRecent, 0)[k..]
    ensures Compacted(h, keepRecent, 0) != [] ==> k < |Compacted(h, keepRecent, 0)|
  {
    k := AppendedIsSuffix(Kept(h, keepRecent), maxTokens);
    var _ := AppendedIsSuffix(Kept(h, keepRecent), 0);
    assert CountedAll(Kept(h, keepRecent))[0..] == CountedAll(Kept(h, keepRecent));
  }

  // ----- Appending one entry -----

  // Appending adds the entry, its tokens counted, and drops entries from the front: none
  // without a budget, and otherwise no more than it has to.
  lemma AppendedSays(h: seq<Entry>, e: Entry, maxTokens: int) returns (k: nat, r: Entry)
    ensures IsCounted(e, r) && k <= |h| && AppendedTo(h, e, maxTokens) == (h + [r])[k..]
    ensures maxTokens <= 0 ==> k == 0
    ensures maxTokens > 0 ==> Total((h + [r])[k..]) <= maxTokens || k == |h|
    ensures maxTokens > 0 ==> forall j :: 0 <= j < k ==> Total((h + [r])[j..]) > maxTokens
  {
    r := Counted(e);
    if maxTokens > 0 {
      k := TrimmedIsLongestFit(h + [r], maxTokens);
    } else {
      k := 0;
      assert (h + [r])[0..] == h + [r];
    }
  }

  // The text of an entry: its content, or the texts of its text blocks in order.
  lemma {:induction false} TextsConcat(a: seq<Block>, b: Block)
    ensures TextOf(a + [b]) == TextOf(a) + if b.kind == "text" then b.text else ""
    ensures TextOf([]) == ""
    ensures forall e: Entry :: e.blocks == a + [b] ==>
      TextContent(e) == TextOf(a) + if b.kind == "text" then b.text else ""
    ensures forall e: Entry :: e.blocks == [] ==> TextContent(e) == e.content
  {
    assert (a + [b])[..|a|] == a;
  }

  // The total is the sum of the token counts.
  lemma {:induction false} TotalAdds(a: seq<Entry>, b: seq<Entry>)
    ensures Total(a + b) == Total(a) + Total(b)
    ensures forall e :: Total([e]) == e.tokenCount
  {
    forall e: Entry
      ensures Total([e]) == e.tokenCount
    {
      assert [e][..0] == [];
    }
    if b == [] {
      assert a + b == a;
    } else {
      var n := |b| - 1;
      assert (a + b)[..|a + b| - 1] == a + b[..n];
      TotalAdds(a, b[..n]);
    }
  }

  // ----- A seeded session -----

  // r is seeded from h: the summary, if there is one, and the entries from position n on.
  ghost predicate IsSeed(h: seq<Entry>, n: nat, summary: string, r: seq<Entry>)
    requires n <= |h|
  {
    var k := if summary != "" then 1 else 0;
    && |r| == k + |h| - n && KeptCounted(h, n, r, k)
    && (k == 1 ==> r[0].role == "user" && r[0].blocks == [] && r[0].content == "[Session context]\n" + summary)
  }

  lemma SeedSays(h: seq<Entry>, summary: string, keepRecent: int)
    ensures IsSeed(h, if 0 < keepRecent < |h| then |h| - keepRecent else 0, summary,
      AppendedAll([], SeedEntries(h, summary, keepRecent), 0))
  {
    var n := if 0 < keepRecent < |h| then |h| - keepRecent else 0;
    var seed := SeedEntries(h, summary, keepRecent);
    assert h[0..] == h;
    var _ := AppendedIsSuffix(seed, 0);
    assert CountedAll(seed)[0..] == CountedAll(seed);
    CountedTail(h, n, seed, if summary != "" then 1 else 0);
  }

  // ----- The text of the old entries -----

  // Where the t-th of these entries starts in their transcript.
  ghost function EntryStart(entries: seq<Entry>, t: nat): nat
    requires t <= |entries|
  {
    if t == 0 then 0
    else EntryStart(entries, t - 1) + |entries[t - 1].role| + 2 + |TextContent(entries[t - 1])| + 1
  }

  ghost predicate EntryAt(text: string, entries: seq<Entry>, t: nat)
    requires t < |entries|
  {
    var p, q := EntryStart(entries, t), EntryStart(entries, t + 1);
    p <= q <= |text| && text[p..q] == entries[t].role + ": " + TextContent(entries[t]) + "\n"
  }

  // The text holds a line for each of the entries, in order, and nothing else.
  ghost predicate IsTranscript(text: string, entries: seq<Entry>) {
    && |text| == EntryStart(entries, |entries|)
    && forall t :: 0 <= t < |entries| ==> EntryAt(text, entries, t)
  }

  lemma {:induction false} EntryStartPrefix(entries: seq<Entry>, more: seq<Entry>, t: nat)
    requires t <= |entries| && entries <= more
    ensures EntryStart(more, t) == EntryStart(entries, t)
  {
    if t > 0 {
      EntryStartPrefix(entries, more, t - 1);
    }
  }

  lemma {:induction false} EntryStartsAscend(entries: seq<Entry>, t: nat)
    requires t <= |entries|
    ensures EntryStart(entries, t) <= EntryStart(entries, |entries|)
    decreases |entries| - t
  {
    if t < |entries| {
      EntryStartsAscend(entries, t + 1);
    }
  }

  lemma TranscriptGrows(text: string, entries: seq<Entry>, e: Entry)
    requires IsTranscript(text, entries)
    ensures IsTranscript(text + SummaryLine(e), entries + [e])
  {
    var more, next, n := text + SummaryLine(e), entries + [e], |entries|;
    EntryStartPrefix(entries, next, n);
    forall t | 0 <= t < |next|
      ensures EntryAt(more, next, t)
    {
      if t < n {
        assert EntryAt(text, entries, t);
        EntryStartPrefix(entries, next, t);
        EntryStartPrefix(entries, next, t + 1);
        var p, q := EntryStart(entries, t), EntryStart(entries, t + 1);
        assert more[p..q] == text[p..q];
      } else {
        assert more[|text|..|more|] == SummaryLine(e);
      }
    }
  }

  lemma {:induction false} LinesAppend(entries: seq<Entry>, e: Entry)
    ensures Lines(entries + [e]) == Lines(entries) + SummaryLine(e)
  {
    if entries == [] {
      assert ([] + [e])[1..] == [];
    } else {
      assert (entries + [e])[1..] == entries[1..] + [e];
      LinesAppend(entries[1..], e);
    }
  }

  lemma {:induction false} LinesAreTranscript(entries: seq<Entry>)
    ensures IsTranscript(Lines(entries), entries)
  {
    if entries != [] {
      var n := |entries| - 1;
      LinesAreTranscript(entries[..n]);
      LinesAppend(entries[..n], entries[n]);
      TranscriptGrows(Lines(entries[..n]), entries[..n], entries[n]);
      assert entries == entries[..n] + [entries[n]];
    }
  }

  // The summary text is the transcript of as many leading entries as fit.
  lemma SummarySays(entries: seq<Entry>, maxChars: int) returns (k: nat)
    ensures k <= |entries| && IsTranscript(SummaryText(entries, "", maxChars), entries[..k])
    ensures k > 0 ==> EntryStart(entries, k) <= maxChars
    ensures k < |entries| ==> EntryStart(entries, k + 1) > maxChars
  {
    k := SummaryIsLongestFit(entries, maxChars);
    LinesAreTranscript(entries[..k]);
    EntryStartPrefix(entries[..k], entries, k);
    if k < |entries| {
      LinesAreTranscript(entries[..k + 1]);
      EntryStartPrefix(entries[..k + 1], entries, k + 1);
    }
  }

  // ----- Sanitizing -----

  // The block is a tool call whose input is missing or null.
  ghost predicate LacksInput(b: Block) {
    b.kind == "tool_use" && b.toolCall.Some? && b.toolCall.value.input in {None, Some("null")}
  }

  ghost predicate CallsId(e: Entry, id: string) {
    exists b :: b in e.blocks && b.kind == "tool_use" && b.toolCall.Some? && b.toolCall.value.id == id
  }

  ghost predicate AnswersId(e: Entry, id: string) {
    exists b :: b in e.blocks && b.kind == "tool_result" && b.toolResult.Some? && b.toolResult.value.toolCallID == id
  }

  // The successor of entry i answers this id.
  ghost predicate AnsweredNext(h: seq<Entry>, i: nat, id: string) {
    i + 1 < |h| && AnswersId(h[i + 1], id)
  }

  lemma {:induction false} CallIdsIff(blocks: seq<Block>, id: string)
    ensures id in CallIds(blocks) <==>
      exists b :: b in blocks && b.kind == "tool_use" && b.toolCall.Some? && b.toolCall.value.id == id
  {
    if blocks != [] {
      var n := |blocks| - 1;
      CallIdsIff(blocks[..n], id);
      assert blocks == blocks[..n] + [blocks[n]];
      assert blocks[n] in blocks;
    }
  }

  lemma ResultsIff(e: Entry, id: string)
    ensures id in Results(e) <==> AnswersId(e, id)
  {
  }

  lemma PairingIff(h: seq<Entry>, i: nat, id: string)
    requires i < |h|
    ensures id in Calls(h[i]) <==> CallsId(h[i], id)
    ensures id in NextResults(h, i) <==> AnsweredNext(h, i, id)
  {
    CallIdsIff(h[i].blocks, id);
    if i + 1 < |h| {
      ResultsIff(h[i + 1], id);
    }
  }

  // A sanitized history is of loadable size, every call has an input, and every call has
  // a result in one of the next two entries.
  lemma SanitizedSays(h: seq<Entry>, maxTokens: int)
    ensures Sanitized(h, maxTokens) ==
      var r := Repaired(FixedAll(h));
      if |r| > 200 then Compacted(r, 4, maxTokens) else r
    ensures |Sanitized(h, maxTokens)| <= 200
    ensures forall e, b :: e in Sanitized(h, maxTokens) && b in e.blocks ==> !LacksInput(b)
    ensures forall i: nat, id :: i < |Sanitized(h, maxTokens)| && CallsId(Sanitized(h, maxTokens)[i], id) ==>
      AnsweredSoon(Sanitized(h, maxTokens), i, id)
  {
    var g := Sanitized(h, maxTokens);
    SanitizedAnsweredWithinTwo(h, maxTokens);
    SanitizedClean(h, maxTokens);
    forall e, b | e in g && b in e.blocks
      ensures !LacksInput(b)
    {
      var i :| 0 <= i < |g| && g[i] == e;
      var j :| 0 <= j < |e.blocks| && e.blocks[j] == b;
      assert !Corrupt(g[i].blocks[j]);
    }
    forall i: nat, id | i < |g| && CallsId(g[i], id)
      ensures AnsweredSoon(g, i, id)
    {
      PairingIff(g, i, id);
      assert AnsweredFrom(g, i, 2) && AnsweredAt(g, i, 2, id);
      var j :| i < j <= i + 2 && j < |g| && id in Results(g[j]);
      ResultsIff(g[j], id);
    }
  }

  ghost predicate AnsweredSoon(h: seq<Entry>, i: nat, id: string) {
    exists j :: i < j <= i + 2 && j < |h| && AnswersId(h[j], id)
  }

  // Input repair gives {} to each call that lacks an input, and changes nothing else.
  lemma FixedSays(h: seq<Entry>, i: nat)
    requires i < |h|
    ensures |FixedAll(h)| == |h| && FixedAll(h)[i] == h[i].(blocks := FixedAll(h)[i].blocks)
    ensures |FixedAll(h)[i].blocks| == |h[i].blocks|
    ensures forall j :: 0 <= j < |h[i].blocks| ==>
      FixedAll(h)[i].blocks[j] ==
        if LacksInput(h[i].blocks[j])
        then h[i].blocks[j].(toolCall := Some(h[i].blocks[j].toolCall.value.(input := Some("{}"))))
        else h[i].blocks[j]
  {
  }

  // What the synthetic results of an entry look like: one for each of its calls that the
  // next entry does not answer, in the order of the calls.
  lemma InjectedSays(h: seq<Entry>, i: nat) returns (idx: seq<nat>)
    requires i < |h|
    ensures Selects(idx, set p: nat | p < |Calls(h[i])| && !AnsweredNext(h, i, Calls(h[i])[p]))
    ensures idx == [] ==> Injected(h, i) == []
    ensures idx != [] ==>
      && |Injected(h, i)| == 1 && Injected(h, i)[0].role == "user" && Injected(h, i)[0].content == ""
      && |Injected(h, i)[0].blocks| == |idx|
      && forall t :: 0 <= t < |idx| ==>
           idx[t] < |Calls(h[i])| && IsSyntheticResult(Injected(h, i)[0].blocks[t], Calls(h[i])[idx[t]])
  {
    var ids := Calls(h[i]);
    idx := OrphansSay(ids, NextResults(h, i));
    forall p: nat | p < |ids|
      ensures ids[p] in NextResults(h, i) <==> AnsweredNext(h, i, ids[p])
    {
      PairingIff(h, i, ids[p]);
    }
    SelectsSame(idx, Unanswered(ids, NextResults(h, i)), set p: nat | p < |ids| && !AnsweredNext(h, i, ids[p]));
  }

  // An error result for this id that says the session was interrupted.
  ghost predicate IsSyntheticResult(b: Block, id: string) {
    b == Block("tool_result", "", None, Some(ToolResult(id, "(interrupted — session resumed)", true)))
  }

  ghost function Unanswered(ids: seq<string>, answered: set<string>): set<nat> {
    set p: nat | p < |ids| && ids[p] !in answered
  }

  lemma {:induction false} OrphansSay(ids: seq<string>, answered: set<string>) returns (idx: seq<nat>)
    ensures Selects(idx, Unanswered(ids, answered)) && |Orphans(ids, answered)| == |idx|
    ensures forall t :: 0 <= t < |idx| ==>
      idx[t] < |ids| && IsSyntheticResult(Orphans(ids, answered)[t], ids[idx[t]])
  {
    if ids == [] {
      idx := [];
      assert Unanswered(ids, answered) == {};
    } else {
      var n := |ids| - 1;
      idx := OrphansSay(ids[..n], answered);
      if ids[n] in answered {
        assert Unanswered(ids, answered) == Unanswered(ids[..n], answered);
      } else {
        SelectsNext(idx, Unanswered(ids[..n], answered), n);
        assert Unanswered(ids, answered) == Unanswered(ids[..n], answered) + {n};
        idx := idx + [n];
      }
    }
  }

  // The ids an entry calls, in the order of its blocks.
  lemma {:induction false} CallsSay(blocks: seq<Block>) returns (idx: seq<nat>)
    ensures Selects(idx, CallPlaces(blocks)) && |CallIds(blocks)| == |idx|
    ensures forall t :: 0 <= t < |idx| ==>
      idx[t] < |blocks| && blocks[idx[t]].toolCall.Some? && CallIds(blocks)[t] == blocks[idx[t]].toolCall.value.id
  {
    if blocks == [] {
      idx := [];
      assert CallPlaces(blocks) == {};
    } else {
      var n := |blocks| - 1;
      idx := CallsSay(blocks[..n]);
      if blocks[n].IsCall() {
        SelectsNext(idx, CallPlaces(blocks[..n]), n);
        assert CallPlaces(blocks) == CallPlaces(blocks[..n]) + {n};
        idx := idx + [n];
      } else {
        assert CallPlaces(blocks) == CallPlaces(blocks[..n]);
      }
    }
  }

  ghost function CallPlaces(blocks: seq<Block>): set<nat> {
    set p: nat | p < |blocks| && blocks[p].kind == "tool_use" && blocks[p].toolCall.Some?
  }

  // Sanitize reports a repair exactly if some call lacks an input, some call is not
  // answered by the next entry, or the repaired history is too long to load.
  lemma ReportSays(h: seq<Entry>)
    ensures ReportsRepair(h) <==>
      || (exists e, b :: e in h && b in e.blocks && LacksInput(b))
      || (exists i: nat, id :: i < |h| && CallsId(h[i], id) && !AnsweredNext(h, i, id))
      || |Repaired(FixedAll(h))| > 200
  {
    CorruptSays(h);
    FixedSamePairing(h);
    SilentIffAnsweredNext(FixedAll(h));
    SamePairingAnsweredIff(h, FixedAll(h), 1);
    UnansweredSays(h);
  }

  lemma CorruptSays(h: seq<Entry>)
    ensures HasCorrupt(h) <==> exists e, b :: e in h && b in e.blocks && LacksInput(b)
  {
    if HasCorrupt(h) {
      var i, j :| 0 <= i < |h| && 0 <= j < |h[i].blocks| && Corrupt(h[i].blocks[j]);
      assert h[i] in h && h[i].blocks[j] in h[i].blocks && LacksInput(h[i].blocks[j]);
    }
    if e, b :| e in h && b in e.blocks && LacksInput(b) {
      var i :| 0 <= i < |h| && h[i] == e;
      var j :| 0 <= j < |e.blocks| && e.blocks[j] == b;
      assert Corrupt(h[i].blocks[j]);
    }
  }

  lemma UnansweredSays(h: seq<Entry>)
    ensures !AnsweredWithin(h, 1) <==> exists i: nat, id :: i < |h| && CallsId(h[i], id) && !AnsweredNext(h, i, id)
  {
    forall i: nat | i < |h|
      ensures AnsweredFrom(h, i, 1) <==> AllAnswered(h, i)
    {
      AnsweredNextIff(h, i);
    }
    if !AnsweredWithin(h, 1) {
      var i :| 0 <= i < |h| && !AllAnswered(h, i);
      var id :| id in Calls(h[i]) && id !in NextResults(h, i);
      PairingIff(h, i, id);
      assert CallsId(h[i], id) && !AnsweredNext(h, i, id);
    }
    if i: nat, id :| i < |h| && CallsId(h[i], id) && !AnsweredNext(h, i, id) {
      PairingIff(h, i, id);
      assert !AllAnswered(h, i);
    }
  }
}
