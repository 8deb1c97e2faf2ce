// Wrapping text at word boundaries (tui/render.go). Strings are byte sequences.
module TextWrap {

  // ----- Lines -----

  // strings.Split at newlines.
  function Split(s: string): (lines: seq<string>)
    ensures lines != []
  {
    if s == "" then [""]
    else if s[0] == '\n' then [""] + Split(s[1..])
    else
      var rest := Split(s[1..]);
      [[s[0]] + rest[0]] + rest[1..]
  }

  function Join(lines: seq<string>): string {
    if lines == [] then ""
    else if |lines| == 1 then lines[0]
    else lines[0] + "\n" + Join(lines[1..])
  }

  ghost predicate OneLine(s: string) {
    '\n' !in s
  }

  lemma {:induction false} SplitLinesAreLines(s: string)
    ensures forall l :: l in Split(s) ==> OneLine(l) && |l| <= |s|
  {
    if s != "" {
      SplitLinesAreLines(s[1..]);
      var rest := Split(s[1..]);
      assert rest[0] in rest && forall l :: l in rest[1..] ==> l in rest;
    }
  }

  lemma {:induction false} SplitPrepend(l: string, s: string)
    requires OneLine(l)
    ensures Split(l + s) == [l + Split(s)[0]] + Split(s)[1..]
  {
    if l == "" {
      assert l + s == s && "" + Split(s)[0] == Split(s)[0];
      assert Split(s) == [Split(s)[0]] + Split(s)[1..];
    } else {
      assert l[0] in l && (l + s)[0] == l[0] && (l + s)[1..] == l[1..] + s;
      SplitPrepend(l[1..], s);
      var rest := Split(l[1..] + s);
      assert Split(l + s) == [[l[0]] + rest[0]] + rest[1..];
      assert [l[0]] + (l[1..] + Split(s)[0]) == l + Split(s)[0];
    }
  }

  lemma {:induction false} SplitJoin(lines: seq<string>)
    requires lines != [] && forall l :: l in lines ==> OneLine(l)
    ensures Split(Join(lines)) == lines
  {
    if |lines| == 1 {
      SplitPrepend(lines[0], "");
      assert lines[0] + "" == lines[0];
    } else {
      SplitJoin(lines[1..]);
      var rest := "\n" + Join(lines[1..]);
      assert rest[1..] == Join(lines[1..]);
      SplitPrepend(lines[0], rest);
      assert lines[0] + rest == Join(lines);
      assert Split(rest) == [""] + lines[1..];
      assert lines[0] + "" == lines[0];
    }
  }

  // ----- Breaking one line -----

  // The last space at or before width, but not before its half; else width.
  ghost predicate IsBreak(line: string, width: nat, b: nat)
    requires width < |line|
  {
    || (width / 2 <= b <= width && line[b] == ' ' && forall i :: b < i <= width ==> line[i] != ' ')
    || (b == width && forall i :: width / 2 <= i <= width ==> line[i] != ' ')
  }

  function BreakFrom(line: string, width: nat, i: int): (r: nat)
    requires width < |line| && i <= width
    ensures r <= width
    decreases i + 1
  {
    if i < width / 2 then width
    else if line[i] == ' ' then i
    else BreakFrom(line, width, i - 1)
  }

  lemma {:induction false} BreakFromIsBreak(line: string, width: nat, i: int)
    requires width < |line| && i <= width && forall j :: 0 <= j <= width && i < j ==> line[j] != ' '
    ensures IsBreak(line, width, BreakFrom(line, width, i))
    decreases i + 1
  {
    if i >= width / 2 && line[i] != ' ' {
      BreakFromIsBreak(line, width, i - 1);
    }
  }

  // r is s without its leading spaces.
  ghost predicate IsTrimmed(s: string, r: string) {
    && |r| <= |s| && r == s[|s| - |r|..]
    && (forall i :: 0 <= i < |s| - |r| ==> s[i] == ' ')
    && (r != "" ==> r[0] != ' ')
  }

  function TrimLeft(s: string): (r: string)
    ensures IsTrimmed(s, r)
  {
    if s != "" && s[0] == ' ' then TrimLeft(s[1..]) else s
  }

  // What is left of a line after the first break and the spaces there; it is always shorter.
  function AfterBreak(line: string, width: nat): (r: string)
    requires 0 < width < |line|
    ensures |r| < |line|
    ensures exists b :: 0 <= b <= width && IsBreak(line, width, b) && IsTrimmed(line[b..], r)
  {
    var b := BreakFrom(line, width, width);
    BreakFromIsBreak(line, width, width);
    TrimLeft(line[b..])
  }

  // The output lines of an input line longer than width, and of what is left of it.
  ghost function Pieces(line: string, width: nat): seq<string>
    requires width > 0
    decreases |line|
  {
    if |line| > width then
      [line[..BreakFrom(line, width, width)]] + Pieces(AfterBreak(line, width), width)
    else if line == "" then []
    else [line]
  }

  ghost function LinePieces(line: string, width: nat): seq<string>
    requires width > 0
  {
    if |line| <= width then [line] else Pieces(line, width)
  }

  ghost function AllPieces(lines: seq<string>, width: nat): seq<string>
    requires width > 0
  {
    if lines == [] then []
    else AllPieces(lines[..|lines| - 1], width) + LinePieces(lines[|lines| - 1], width)
  }

  // A newline goes before a piece only if something has been written.
  function Emit(out: string, piece: string): string {
    (if |out| > 0 then out + "\n" else out) + piece
  }

  ghost function EmitAll(out: string, pieces: seq<string>): string {
    if pieces == [] then out
    else Emit(EmitAll(out, pieces[..|pieces| - 1]), pieces[|pieces| - 1])
  }

  ghost function Wrapped(text: string, width: int): string {
    if width <= 0 || |text| <= width then text else EmitAll("", AllPieces(Split(text), width))
  }

  lemma {:induction false} EmitAllConcat(out: string, a: seq<string>, b: seq<string>)
    ensures EmitAll(out, a + b) == EmitAll(EmitAll(out, a), b)
  {
    if b == [] {
      assert a + b == a;
    } else {
      var n := |b| - 1;
      assert (a + b)[..|a + b| - 1] == a + b[..n];
      EmitAllConcat(out, a, b[..n]);
    }
  }

  method FindBreak(line: string, width: nat) returns (breakAt: nat)
    requires width < |line|
    ensures breakAt == BreakFrom(line, width, width)
  {
    breakAt := width;
    var i: int := width;
    while i >= width / 2
      invariant i <= width && breakAt == width
      invariant BreakFrom(line, width, width) == BreakFrom(line, width, i)
      decreases i + 1
    {
      if line[i] == ' ' {
        return i;
      }
      i := i - 1;
    }
  }

  lemma {:induction false} AllPiecesNext(lines: seq<string>, k: nat, width: nat)
    requires width > 0 && k < |lines|
    ensures AllPieces(lines[..k + 1], width) == AllPieces(lines[..k], width) + LinePieces(lines[k], width)
  {
    assert lines[..k + 1][..k] == lines[..k];
  }

  method WrapText(text: string, width: int) returns (r: string)
    ensures r == Wrapped(text, width)
    ensures width <= 0 || |text| <= width ==> r == text
  {
    if width <= 0 || |text| <= width {
      return text;
    }
    r := "";
    var lines := Split(text);
    for k := 0 to |lines|
      invariant r == EmitAll("", AllPieces(lines[..k], width))
    {
      var line := lines[k];
      AllPiecesNext(lines, k, width);
      EmitAllConcat("", AllPieces(lines[..k], width), LinePieces(line, width));
      r := WrapLine(r, line, width);
    }
    assert lines[..|lines|] == lines;
  }

  method WrapLine(r0: string, line0: string, width: nat) returns (r: string)
    requires width > 0
    ensures r == EmitAll(r0, LinePieces(line0, width))
  {
    EmitOne(r0, line0);
    if |line0| <= width {
      return Emit(r0, line0);
    }
    r := r0;
    var line := line0;
    while |line| > width
      invariant EmitAll(r, Pieces(line, width)) == EmitAll(r0, Pieces(line0, width))
      decreases |line|
    {
      var breakAt := FindBreak(line, width);
      EmitAllConcat(r, [line[..breakAt]], Pieces(AfterBreak(line, width), width));
      EmitOne(r, line[..breakAt]);
      r := Emit(r, line[..breakAt]);
      line := AfterBreak(line, width);
    }
    EmitOne(r, line);
    if line != "" {
      r := Emit(r, line);
    }
  }

  lemma {:induction false} EmitOne(out: string, piece: string)
    ensures EmitAll(out, [piece]) == Emit(out, piece)
  {
    assert [piece][..0] == [];
  }

  // ----- What wrapping promises -----

  ghost predicate Fits(line: string, width: nat) {
    OneLine(line) && |line| <= width
  }

  ghost predicate AllFit(lines: seq<string>, width: nat) {
    forall l :: l in lines ==> Fits(l, width)
  }

  lemma {:induction false} PiecesFit(line: string, width: nat)
    requires width > 0 && OneLine(line)
    ensures AllFit(Pieces(line, width), width)
    decreases |line|
  {
    if |line| > width {
      var b := BreakFrom(line, width, width);
      assert forall c :: c in AfterBreak(line, width) ==> c in line[b..];
      PiecesFit(AfterBreak(line, width), width);
    }
  }

  lemma {:induction false} AllPiecesFit(lines: seq<string>, width: nat)
    requires width > 0 && forall l :: l in lines ==> OneLine(l)
    ensures AllFit(AllPieces(lines, width), width)
  {
    if lines != [] {
      var n := |lines| - 1;
      assert lines[n] in lines;
      AllPiecesFit(lines[..n], width);
      PiecesFit(lines[n], width);
    }
  }

  // Empty pieces at the start leave no trace.
  ghost function Settled(pieces: seq<string>): seq<string> {
    if pieces != [] && pieces[0] == "" then Settled(pieces[1..]) else pieces
  }

  lemma {:induction false} JoinAppend(lines: seq<string>, l: string)
    requires lines != []
    ensures Join(lines + [l]) == Join(lines) + "\n" + l
  {
    if |lines| > 1 {
      assert (lines + [l])[1..] == lines[1..] + [l];
      JoinAppend(lines[1..], l);
    } else {
      assert lines + [l] == [lines[0], l];
    }
  }

  // Emitting pieces of which the first is not empty joins them.
  lemma {:induction false} EmitAllJoins(pieces: seq<string>)
    requires pieces != [] ==> pieces[0] != ""
    ensures EmitAll("", pieces) == Join(pieces) && (pieces != [] ==> EmitAll("", pieces) != "")
  {
    if |pieces| == 1 {
      EmitOne("", pieces[0]);
    } else if |pieces| > 1 {
      var n := |pieces| - 1;
      EmitAllJoins(pieces[..n]);
      assert pieces == pieces[..n] + [pieces[n]];
      JoinAppend(pieces[..n], pieces[n]);
    }
  }

  lemma {:induction false} EmitAllSettles(pieces: seq<string>)
    ensures EmitAll("", pieces) == Join(Settled(pieces))
    ensures Settled(pieces) != [] ==> Settled(pieces)[0] != ""
    ensures forall p :: p in Settled(pieces) ==> p in pieces
    decreases |pieces|
  {
    if pieces != [] && pieces[0] == "" {
      assert pieces == [""] + pieces[1..];
      EmitAllConcat("", [""], pieces[1..]);
      EmitOne("", "");
      EmitAllSettles(pieces[1..]);
    } else {
      EmitAllJoins(pieces);
    }
  }

  // The first line of a text goes up to its first newline.
  lemma {:induction false} SplitFirst(s: string)
    ensures Split(s)[0] <= s && OneLine(Split(s)[0])
    ensures |Split(s)[0]| < |s| ==> s[|Split(s)[0]|] == '\n'
  {
    if s != "" && s[0] != '\n' {
      SplitFirst(s[1..]);
      assert Split(s)[0] == [s[0]] + Split(s[1..])[0];
    }
  }

  lemma {:induction false} AllPiecesFirst(lines: seq<string>, width: nat)
    requires width > 0 && lines != []
    ensures LinePieces(lines[0], width) != [] && AllPieces(lines, width) != []
    ensures AllPieces(lines, width)[0] == LinePieces(lines[0], width)[0]
  {
    var n := |lines| - 1;
    if n > 0 {
      AllPiecesFirst(lines[..n], width);
    } else {
      assert lines[..n] == [];
    }
  }

  // When wrapping drops something: the text starts with an empty line, or, at width 1,
  // with a space that is the break before the first letter.
  predicate StartsEmpty(text: string, width: nat)
    requires 0 < width < |text|
  {
    text[0] == '\n' || (width == 1 && text[0] == ' ' && text[1] != ' ' && text[1] != '\n')
  }

  // Wrapping keeps all pieces exactly if the first is not empty.
  lemma {:induction false} NothingDroppedIff(text: string, width: nat)
    requires 0 < width < |text|
    ensures Settled(AllPieces(Split(text), width)) == AllPieces(Split(text), width) <==> !StartsEmpty(text, width)
  {
    var lines := Split(text);
    var line, pieces := lines[0], AllPieces(lines, width);
    SplitFirst(text);
    AllPiecesFirst(lines, width);
    SettledSame(pieces);
    if |line| <= width {
      assert pieces[0] == line;
    } else {
      assert line[0] == text[0] && line[1] == text[1];
      FirstPieceEmptyIff(line, width);
    }
  }

  lemma {:induction false} FirstPieceEmptyIff(line: string, width: nat)
    requires 0 < width < |line| && OneLine(line)
    ensures Pieces(line, width)[0] == "" <==> StartsEmpty(line, width)
  {
    var b := BreakFrom(line, width, width);
    BreakFromIsBreak(line, width, width);
    assert line[0] in line && line[1] in line;
    assert Pieces(line, width)[0] == line[..b];
  }

  lemma {:induction false} SettledSame(pieces: seq<string>)
    ensures |Settled(pieces)| <= |pieces|
    ensures Settled(pieces) == pieces <==> pieces == [] || pieces[0] != ""
  {
    if pieces != [] && pieces[0] == "" {
      SettledSame(pieces[1..]);
    }
  }

  // An empty line at the start is lost.
  lemma LeadingLineDropped()
    ensures Wrapped("\nabc", 3) == "abc"
  {
    var text, pieces := "\nabc", ["", "abc"];
    assert text[1..] == "abc";
    SplitPrepend("abc", "");
    assert "abc" + "" == "abc" && Split(text) == pieces;
    assert pieces[..1] == [""] && pieces[..1][..0] == [];
    assert AllPieces(pieces[..1], 3) == [""];
    assert AllPieces(pieces, 3) == pieces;
    EmitAllSettles(pieces);
    assert pieces[1..] == ["abc"] && Settled(pieces) == Settled(pieces[1..]) == ["abc"];
  }

  // The output of an actual wrap: its lines are the settled pieces.
  lemma WrappedLines(text: string, width: int) returns (lines: seq<string>)
    requires 0 < width < |text|
    ensures lines == Settled(AllPieces(Split(text), width))
    ensures AllFit(lines, width) && (lines != [] ==> lines[0] != "")
    ensures Wrapped(text, width) == Join(lines)
    ensures lines != [] ==> Split(Wrapped(text, width)) == lines
  {
    SplitLinesAreLines(text);
    AllPiecesFit(Split(text), width);
    var pieces := AllPieces(Split(text), width);
    EmitAllSettles(pieces);
    lines := Settled(pieces);
    if lines != [] {
      SplitJoin(lines);
    }
  }

  // Every output line has at most width bytes.
  lemma WrappedFits(text: string, width: int)
    requires width > 0
    ensures AllFit(Split(Wrapped(text, width)), width)
  {
    if |text| <= width {
      SplitLinesAreLines(text);
    } else {
      var lines := WrappedLines(text, width);
      if lines == [] {
        assert Split("") == [""];
      }
    }
  }

  lemma {:induction false} FittingPieces(lines: seq<string>, width: nat)
    requires width > 0 && AllFit(lines, width)
    ensures AllPieces(lines, width) == lines
  {
    if lines != [] {
      var n := |lines| - 1;
      assert lines[n] in lines && lines == lines[..n] + [lines[n]];
      FittingPieces(lines[..n], width);
    }
  }

  // Wrapping wrapped text changes nothing.
  lemma WrapIsIdempotent(text: string, width: int)
    ensures Wrapped(Wrapped(text, width), width) == Wrapped(text, width)
  {
    if 0 < width < |text| {
      var r := Wrapped(text, width);
      var lines := WrappedLines(text, width);
      if |r| > width {
        assert lines != [];
        FittingPieces(lines, width);
        EmitAllJoins(lines);
      }
    }
  }

  // The bytes that are neither spaces nor newlines.
  ghost function Ink(s: string): string {
    if s == "" then ""
    else (if s[0] == ' ' || s[0] == '\n' then "" else [s[0]]) + Ink(s[1..])
  }

  lemma {:induction false} InkConcat(a: string, b: string)
    ensures Ink(a + b) == Ink(a) + Ink(b)
  {
    if a == "" {
      assert a + b == b;
    } else {
      assert (a + b)[1..] == a[1..] + b;
      InkConcat(a[1..], b);
    }
  }

  lemma Regroup(a: string, b: string, c: string)
    ensures a + b + c == a + (b + c)
  {
  }

  ghost function InkOfAll(lines: seq<string>): string {
    if lines == [] then "" else InkOfAll(lines[..|lines| - 1]) + Ink(lines[|lines| - 1])
  }

  lemma {:induction false} InkOfAllConcat(a: seq<string>, b: seq<string>)
    ensures InkOfAll(a + b) == InkOfAll(a) + InkOfAll(b)
  {
    if b == [] {
      assert a + b == a;
    } else {
      var n := |b| - 1;
      assert (a + b)[..|a + b| - 1] == a + b[..n] && (a + b)[|a + b| - 1] == b[n];
      InkOfAllConcat(a, b[..n]);
      Regroup(InkOfAll(a), InkOfAll(b[..n]), Ink(b[n]));
    }
  }

  lemma {:induction false} InkOfOne(l: string)
    ensures InkOfAll([l]) == Ink(l)
  {
    assert [l][..0] == [];
  }

  lemma {:induction false} TrimLeftKeepsInk(s: string)
    ensures Ink(TrimLeft(s)) == Ink(s)
  {
    if s != "" && s[0] == ' ' {
      TrimLeftKeepsInk(s[1..]);
    }
  }

  lemma {:induction false} SplitKeepsInk(s: string)
    ensures InkOfAll(Split(s)) == Ink(s)
  {
    if s == "" {
      InkOfOne("");
    } else if s[0] == '\n' {
      SplitKeepsInk(s[1..]);
      InkOfOne("");
      InkOfAllConcat([""], Split(s[1..]));
    } else {
      SplitKeepsInk(s[1..]);
      var rest := Split(s[1..]);
      InkOfLonger([s[0]], rest[0], rest[1..]);
      assert [rest[0]] + rest[1..] == rest;
      assert [s[0]] + s[1..] == s;
      InkConcat([s[0]], s[1..]);
    }
  }

  lemma {:induction false} InkOfFirst(l: string, rest: seq<string>)
    ensures InkOfAll([l] + rest) == Ink(l) + InkOfAll(rest)
  {
    InkOfOne(l);
    InkOfAllConcat([l], rest);
  }

  lemma {:induction false} InkOfJoinedFirst(c: string, first: string, rest: seq<string>)
    ensures InkOfAll([c + first] + rest) == Ink(c) + Ink(first) + InkOfAll(rest)
  {
    InkOfFirst(c + first, rest);
    InkConcat(c, first);
  }

  // Putting c before the first line.
  lemma {:induction false} InkOfLonger(c: string, first: string, rest: seq<string>)
    ensures InkOfAll([c + first] + rest) == Ink(c) + InkOfAll([first] + rest)
  {
    InkOfJoinedFirst(c, first, rest);
    InkOfFirst(first, rest);
  }

  lemma {:induction false} HalvesKeepInk(line: string, b: nat)
    requires b <= |line|
    ensures Ink(line[..b]) + Ink(TrimLeft(line[b..])) == Ink(line)
  {
    TrimLeftKeepsInk(line[b..]);
    assert line[..b] + line[b..] == line;
    InkConcat(line[..b], line[b..]);
  }

  lemma {:induction false} PiecesKeepInk(line: string, width: nat)
    requires width > 0
    ensures InkOfAll(Pieces(line, width)) == Ink(line)
    decreases |line|
  {
    if |line| > width {
      HalvesKeepInk(line, BreakFrom(line, width, width));
      PiecesKeepInk(AfterBreak(line, width), width);
      InkOfFirst(line[..BreakFrom(line, width, width)], Pieces(AfterBreak(line, width), width));
    } else {
      InkOfOne(line);
    }
  }

  lemma {:induction false} AllPiecesKeepInk(lines: seq<string>, width: nat)
    requires width > 0
    ensures InkOfAll(AllPieces(lines, width)) == InkOfAll(lines)
  {
    if lines != [] {
      var n := |lines| - 1;
      AllPiecesKeepInk(lines[..n], width);
      PiecesKeepInk(lines[n], width);
      InkOfOne(lines[n]);
      InkOfAllConcat(AllPieces(lines[..n], width), LinePieces(lines[n], width));
    }
  }

  lemma {:induction false} EmitAllKeepsInk(pieces: seq<string>)
    ensures Ink(EmitAll("", pieces)) == InkOfAll(pieces)
  {
    if pieces != [] {
      var n := |pieces| - 1;
      EmitAllKeepsInk(pieces[..n]);
      var out := EmitAll("", pieces[..n]);
      InkConcat(out, "\n");
      assert Ink("\n") == "";
      InkConcat(out + "\n", pieces[n]);
      InkConcat(out, pieces[n]);
    }
  }

  // Every other byte is kept, in order.
  lemma {:induction false} WrapKeepsInk(text: string, width: int)
    ensures Ink(Wrapped(text, width)) == Ink(text)
  {
    if 0 < width < |text| {
      SplitKeepsInk(text);
      AllPiecesKeepInk(Split(text), width);
      EmitAllKeepsInk(AllPieces(Split(text), width));
    }
  }

  // ----- What wrapping writes -----

  // The line is cut into these pieces: `rests` is what is left of it before each cut and
  // in the end; each cut is at a break, and the spaces there go.
  ghost predicate IsCut(line: string, width: nat, pieces: seq<string>, rests: seq<string>) {
    && |rests| > 0 && rests[0] == line
    && |pieces| == |rests| - (if rests[|rests| - 1] == "" then 1 else 0)
    && (forall t :: 0 <= t < |rests| - 1 ==> IsCutOff(rests[t], width, pieces[t], rests[t + 1]))
    && |rests[|rests| - 1]| <= width
    && (rests[|rests| - 1] != "" ==> pieces[|rests| - 1] == rests[|rests| - 1])
  }

  ghost predicate IsCutOff(line: string, width: nat, piece: string, rest: string) {
    && |line| > width >= |piece| && piece == line[..|piece|]
    && IsBreak(line, width, |piece|) && IsTrimmed(line[|piece|..], rest)
  }

  // A line within the width stays as it is, even if it is empty.
  ghost predicate IsBroken(line: string, width: nat, pieces: seq<string>) {
    if |line| <= width then pieces == [line] else exists rests :: IsCut(line, width, pieces, rests)
  }

  lemma {:induction false} PiecesSay(line: string, width: nat) returns (rests: seq<string>)
    requires width > 0
    ensures IsCut(line, width, Pieces(line, width), rests)
    decreases |line|
  {
    if |line| <= width {
      rests := [line];
    } else {
      var next := AfterBreak(line, width);
      var more := PiecesSay(next, width);
      rests := [line] + more;
      BreakFromIsBreak(line, width, width);
      CutFirst(line, width, line[..BreakFrom(line, width, width)], Pieces(next, width), more);
    }
  }

  lemma CutFirst(line: string, width: nat, piece: string, pieces: seq<string>, rests: seq<string>)
    requires rests != [] && IsCutOff(line, width, piece, rests[0]) && IsCut(rests[0], width, pieces, rests)
    ensures IsCut(line, width, [piece] + pieces, [line] + rests)
  {
    var cut, all := [piece] + pieces, [line] + rests;
    assert all[|all| - 1] == rests[|rests| - 1];
    forall t | 0 <= t < |all| - 1
      ensures IsCutOff(all[t], width, cut[t], all[t + 1])
    {
      if t > 0 {
        assert IsCutOff(rests[t - 1], width, pieces[t - 1], rests[t]);
      }
    }
  }

  lemma LineIsBroken(line: string, width: nat)
    requires width > 0
    ensures IsBroken(line, width, LinePieces(line, width))
  {
    var rests := PiecesSay(line, width);
  }

  ghost function Concat(groups: seq<seq<string>>): seq<string> {
    if groups == [] then [] else Concat(groups[..|groups| - 1]) + groups[|groups| - 1]
  }

  ghost predicate AreBroken(lines: seq<string>, width: nat, groups: seq<seq<string>>) {
    |groups| == |lines| && forall k :: 0 <= k < |lines| ==> IsBroken(lines[k], width, groups[k])
  }

  ghost function PieceGroups(lines: seq<string>, width: nat): seq<seq<string>>
    requires width > 0
  {
    seq(|lines|, k requires 0 <= k < |lines| => LinePieces(lines[k], width))
  }

  lemma {:induction false} AllPiecesConcat(lines: seq<string>, width: nat)
    requires width > 0
    ensures AllPieces(lines, width) == Concat(PieceGroups(lines, width))
  {
    if lines != [] {
      var n := |lines| - 1;
      AllPiecesConcat(lines[..n], width);
      assert PieceGroups(lines, width)[..n] == PieceGroups(lines[..n], width);
    }
  }

  lemma GroupsAreBroken(lines: seq<string>, width: nat)
    requires width > 0
    ensures AreBroken(lines, width, PieceGroups(lines, width))
  {
    forall k | 0 <= k < |lines|
      ensures IsBroken(lines[k], width, PieceGroups(lines, width)[k])
    {
      LineIsBroken(lines[k], width);
    }
  }

  lemma {:induction false} SettledSays(pieces: seq<string>) returns (j: nat)
    ensures j <= |pieces| && Settled(pieces) == pieces[j..]
    ensures (forall i :: 0 <= i < j ==> pieces[i] == "") && (j < |pieces| ==> pieces[j] != "")
  {
    if pieces != [] && pieces[0] == "" {
      var k := SettledSays(pieces[1..]);
      j := k + 1;
      forall i | 0 <= i < j
        ensures pieces[i] == ""
      {
        assert i > 0 ==> pieces[i] == pieces[1..][i - 1];
      }
    } else {
      j := 0;
    }
  }

  lemma {:induction false} JoinSplit(s: string)
    ensures Join(Split(s)) == s
  {
    if s != "" {
      JoinSplit(s[1..]);
      var rest := Split(s[1..]);
      assert s == [s[0]] + s[1..];
      if s[0] == '\n' {
        assert ([""] + rest)[1..] == rest;
      } else {
        JoinLonger(s[0], rest);
      }
    }
  }

  lemma {:induction false} JoinLonger(c: char, lines: seq<string>)
    requires lines != []
    ensures Join([[c] + lines[0]] + lines[1..]) == [c] + Join(lines)
  {
    var longer := [[c] + lines[0]] + lines[1..];
    assert longer[1..] == lines[1..] && |longer| == |lines|;
    if |lines| > 1 {
      assert [c] + lines[0] + "\n" + Join(lines[1..]) == [c] + (lines[0] + "\n" + Join(lines[1..]));
    }
  }

  // The text's lines, each broken or as it is, are written in order, one below the other,
  // without the empty ones at the start.
  lemma WrapSays(text: string, width: int) returns (lines: seq<string>, groups: seq<seq<string>>, j: nat)
    requires 0 < width < |text|
    ensures Join(lines) == text && forall l :: l in lines ==> '\n' !in l
    ensures AreBroken(lines, width, groups) && j <= |Concat(groups)|
    ensures (forall i :: 0 <= i < j ==> Concat(groups)[i] == "") && (j < |Concat(groups)| ==> Concat(groups)[j] != "")
    ensures Wrapped(text, width) == Join(Concat(groups)[j..])
  {
    lines := Split(text);
    JoinSplit(text);
    SplitLinesAreLines(text);
    groups := PieceGroups(lines, width);
    GroupsAreBroken(lines, width);
    AllPiecesConcat(lines, width);
    j := SettledSays(Concat(groups));
    var _ := WrappedLines(text, width);
  }
}
