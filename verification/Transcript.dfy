// Conversation entries and the pairing of tool calls with their results
// (cortex/session.go, cortex/history.go, driver/message.go).
module Transcript {
  import opened Wrappers

  datatype ToolCall = ToolCall(id: string, name: string, input: Option<string>)

  datatype ToolResult = ToolResult(toolCallID: string, output: string, isError: bool)

  datatype Block = Block(kind: string, text: string, toolCall: Option<ToolCall>, toolResult: Option<ToolResult>)
  {
    predicate IsCall() {
      kind == TOOL_USE && toolCall.Some?
    }

    predicate IsResult() {
      kind == TOOL_RESULT && toolResult.Some?
    }
  }

  datatype Entry = Entry(role: string, content: string, blocks: seq<Block>, tokenCount: int)

  const TOOL_USE := "tool_use"
  const TOOL_RESULT := "tool_result"
  const TEXT := "text"
  const ROLE_USER := "user"

  // The ids that the blocks call, in order.
  ghost function CallIds(blocks: seq<Block>): seq<string> {
    if blocks == [] then [] else
      var n := |blocks| - 1;
      CallIds(blocks[..n]) + if blocks[n].IsCall() then [blocks[n].toolCall.value.id] else []
  }

  ghost function Calls(e: Entry): seq<string> {
    CallIds(e.blocks)
  }

  // The ids that the entry has results for.
  ghost function Results(e: Entry): set<string> {
    set b | b in e.blocks && b.IsResult() :: b.toolResult.value.toolCallID
  }

  // Every call of entry i has a result in one of the next d entries.
  ghost predicate AnsweredFrom(h: seq<Entry>, i: nat, d: nat)
    requires i < |h|
  {
    forall id :: id in Calls(h[i]) ==> AnsweredAt(h, i, d, id)
  }

  ghost predicate AnsweredAt(h: seq<Entry>, i: nat, d: nat, id: string) {
    exists j :: i < j <= i + d && j < |h| && id in Results(h[j])
  }

  ghost predicate AnsweredWithin(h: seq<Entry>, d: nat) {
    forall i :: 0 <= i < |h| ==> AnsweredFrom(h, i, d)
  }

  // The ids the entry after i has results for.
  ghost function NextResults(h: seq<Entry>, i: nat): set<string> {
    if i + 1 < |h| then Results(h[i + 1]) else {}
  }

  ghost predicate AllAnswered(h: seq<Entry>, i: nat)
    requires i < |h|
  {
    forall id :: id in Calls(h[i]) ==> id in NextResults(h, i)
  }

  ghost predicate NoneAnswered(h: seq<Entry>, i: nat)
    requires i < |h|
  {
    forall id :: id in Calls(h[i]) ==> id !in NextResults(h, i)
  }

  // Entry i's calls are not answered only in part by its successor.
  ghost predicate AllOrNoneAt(h: seq<Entry>, i: nat)
    requires i < |h|
  {
    AllAnswered(h, i) || NoneAnswered(h, i)
  }

  ghost predicate AllOrNone(h: seq<Entry>) {
    forall i :: 0 <= i < |h| ==> AllOrNoneAt(h, i)
  }

  // In a suffix the same entries are answered as in the whole history.
  lemma SuffixAnsweredFrom(h: seq<Entry>, k: nat, i: nat, d: nat)
    requires k + i < |h|
    ensures AnsweredFrom(h[k..], i, d) <==> AnsweredFrom(h, k + i, d)
  {
    var t := h[k..];
    forall id
      ensures AnsweredAt(t, i, d, id) <==> AnsweredAt(h, k + i, d, id)
    {
      if AnsweredAt(h, k + i, d, id) {
        var j :| k + i < j <= k + i + d && j < |h| && id in Results(h[j]);
        assert t[j - k] == h[j];
      }
      if AnsweredAt(t, i, d, id) {
        var j :| i < j <= i + d && j < |t| && id in Results(t[j]);
        assert h[k + j] == t[j];
      }
    }
  }

  ghost predicate AnsweredOnward(h: seq<Entry>, k: nat, d: nat) {
    forall p :: k <= p < |h| ==> AnsweredFrom(h, p, d)
  }

  lemma SuffixAnsweredIff(h: seq<Entry>, k: nat, d: nat)
    requires k <= |h|
    ensures AnsweredWithin(h[k..], d) <==> AnsweredOnward(h, k, d)
  {
    forall i | 0 <= i < |h[k..]|
      ensures AnsweredFrom(h[k..], i, d) <==> AnsweredFrom(h, k + i, d)
    {
      SuffixAnsweredFrom(h, k, i, d);
    }
    if AnsweredWithin(h[k..], d) {
      forall p | k <= p < |h|
        ensures AnsweredFrom(h, p, d)
      {
        SuffixAnsweredFrom(h, k, p - k, d);
        assert AnsweredFrom(h[k..], p - k, d);
      }
    }
  }

  // From position k on, no entry's calls are answered only in part by its successor.
  ghost predicate AllOrNoneFrom(h: seq<Entry>, k: nat) {
    forall p :: k <= p < |h| ==> AllOrNoneAt(h, p)
  }

  lemma SuffixAllOrNoneIff(h: seq<Entry>, k: nat)
    requires k <= |h|
    ensures AllOrNone(h[k..]) <==> AllOrNoneFrom(h, k)
  {
    forall p | k <= p < |h|
      ensures AllOrNoneAt(h, p) <==> AllOrNoneAt(h[k..], p - k)
    {
      assert NextResults(h[k..], p - k) == NextResults(h, p);
    }
    if AllOrNoneFrom(h, k) {
      forall i | 0 <= i < |h[k..]|
        ensures AllOrNoneAt(h[k..], i)
      {
        assert AllOrNoneAt(h, k + i);
      }
    }
  }

  // Putting an entry without calls in front changes nothing for the others.
  lemma PrependAnsweredIff(e: Entry, h: seq<Entry>, d: nat)
    requires Calls(e) == []
    ensures AnsweredWithin([e] + h, d) <==> AnsweredWithin(h, d)
  {
    var t := [e] + h;
    assert t[1..] == h;
    SuffixAnsweredIff(t, 1, d);
    assert AnsweredFrom(t, 0, d);
  }

  lemma PrependAllOrNoneIff(e: Entry, h: seq<Entry>)
    requires Calls(e) == []
    ensures AllOrNone([e] + h) <==> AllOrNone(h)
  {
    var t := [e] + h;
    assert t[1..] == h;
    SuffixAllOrNoneIff(t, 1);
    assert AllOrNoneAt(t, 0);
  }

  // h and g differ in token counts and call inputs only.
  ghost predicate SamePairing(h: seq<Entry>, g: seq<Entry>) {
    |h| == |g| && forall i :: 0 <= i < |h| ==> Calls(h[i]) == Calls(g[i]) && Results(h[i]) == Results(g[i])
  }

  lemma SamePairingAnsweredIff(h: seq<Entry>, g: seq<Entry>, d: nat)
    requires SamePairing(h, g)
    ensures AnsweredWithin(h, d) <==> AnsweredWithin(g, d)
  {
    forall i | 0 <= i < |h|
      ensures AnsweredFrom(h, i, d) <==> AnsweredFrom(g, i, d)
    {
      forall id
        ensures AnsweredAt(h, i, d, id) <==> AnsweredAt(g, i, d, id)
      {
      }
    }
  }

  lemma SamePairingAllOrNone(h: seq<Entry>, g: seq<Entry>, i: nat)
    requires SamePairing(h, g) && i < |h|
    ensures AllOrNoneAt(h, i) <==> AllOrNoneAt(g, i)
  {
    assert NextResults(g, i) == NextResults(h, i);
  }

  lemma SamePairingAllOrNoneIff(h: seq<Entry>, g: seq<Entry>)
    requires SamePairing(h, g)
    ensures AllOrNone(h) <==> AllOrNone(g)
  {
    forall i | 0 <= i < |h|
      ensures AllOrNoneAt(h, i) <==> AllOrNoneAt(g, i)
    {
      SamePairingAllOrNone(h, g, i);
    }
  }
}
