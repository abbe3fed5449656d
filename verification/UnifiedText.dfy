/** UnifiedDiff of cmd/lsctl/internal/render/diff.go: the text it prints, and that a
    reader of that text recovers the new lines from the old ones. */
module UnifiedText {
  import opened Basics
  import opened Text
  import opened LineDiff
  import opened Hunks
  import opened Patch

  // ---------------------------------------------------------------- lines of a text

  predicate EndsInNewline(s: string) { s != "" && s[|s| - 1] == '\n' }

  function TrimNewline(s: string): string { if EndsInNewline(s) then s[..|s| - 1] else s }

  function SplitLines(s: string): seq<Line> {
    if s == "" then [] else Split(TrimNewline(s), '\n')
  }

  /** The texts agree except that one may lack the newline at its end. */
  predicate EqualUpToFinalNewline(x: string, y: string) {
    || x == y
    || (x != "" && !EndsInNewline(x) && y == x + "\n")
    || (y != "" && !EndsInNewline(y) && x == y + "\n")
  }

  lemma SameLines(x: string, y: string)
    ensures SplitLines(x) == SplitLines(y) <==> EqualUpToFinalNewline(x, y)
  {
    if SplitLines(x) == SplitLines(y) && x != "" && y != "" {
      SplitInjective(TrimNewline(x), TrimNewline(y), '\n');
      assert EndsInNewline(x) ==> x == TrimNewline(x) + "\n";
      assert EndsInNewline(y) ==> y == TrimNewline(y) + "\n";
    }
    if EqualUpToFinalNewline(x, y) {
      assert (x + "\n")[..|x|] == x && (y + "\n")[..|y|] == y;
    }
  }

  function Unlines(lines: seq<Line>): string {
    if lines == [] then "" else lines[0] + "\n" + Unlines(lines[1..])
  }

  lemma {:induction false} UnlinesAppend(x: seq<Line>, y: seq<Line>)
    ensures Unlines(x + y) == Unlines(x) + Unlines(y)
  {
    if x == [] {
      assert x + y == y;
    } else {
      assert (x + y)[1..] == x[1..] + y;
      UnlinesAppend(x[1..], y);
    }
  }

  lemma {:induction false} UnlinesIsJoin(lines: seq<Line>)
    requires lines != []
    ensures Unlines(lines) == Join(lines, '\n') + "\n"
  {
    if |lines| > 1 {
      UnlinesIsJoin(lines[1..]);
    } else {
      assert lines[1..] == [];
    }
  }

  lemma SplitUnlines(lines: seq<Line>)
    requires AllFreeOf(lines, '\n')
    ensures SplitLines(Unlines(lines)) == lines
  {
    if lines != [] {
      UnlinesIsJoin(lines);
      var joined := Join(lines, '\n');
      assert (joined + "\n")[..|joined|] == joined;
      SplitJoin(lines, '\n');
    }
  }

  // ---------------------------------------------------------------- printing hunks

  function RenderRange(r: Range): string
    requires r.start >= 0
  {
    if r.count == 1 then Decimal(r.start) else Decimal(r.start) + "," + Decimal(r.count)
  }

  function KindChar(k: Kind): char {
    match k
    case Same => ' '
    case Removed => '-'
    case Added => '+'
  }

  function OpLine(o: Op): Line { [KindChar(o.kind)] + o.text }

  predicate Printable(h: Hunk) { h.oldRange.start >= 0 && h.newRange.start >= 0 }

  function HeaderLine(h: Hunk): Line
    requires Printable(h)
  {
    "@@ -" + RenderRange(h.oldRange) + " +" + RenderRange(h.newRange) + " @@"
  }

  function BodyLines(body: seq<Op>): (lines: seq<Line>)
    ensures |lines| == |body|
    ensures forall i :: 0 <= i < |body| ==> lines[i] == OpLine(body[i])
  {
    seq(|body|, i requires 0 <= i < |body| => OpLine(body[i]))
  }

  function HunkLines(h: Hunk): seq<Line>
    requires Printable(h)
  {
    [HeaderLine(h)] + BodyLines(h.body)
  }

  function AllLines(hs: seq<Hunk>): seq<Line>
    requires forall h :: h in hs ==> Printable(h)
  {
    if hs == [] then [] else HunkLines(hs[0]) + AllLines(hs[1..])
  }

  // ---------------------------------------------------------------- reading them back

  /** "start" or "start,count" at the head of s, and what follows. */
  function ReadRange(s: string): Option<(Range, string)> {
    if s == "" || !IsDigit(s[0]) then None
    else
      var (start, rest) := ReadDigits(s, 0);
      if rest == "" || rest[0] != ',' then Some((Range(start, 1), rest))
      else
        var (count, rest') := ReadDigits(rest[1..], 0);
        Some((Range(start, count), rest'))
  }

  function ReadHeader(line: Line): Option<(Range, Range)> {
    if !HasPrefix(line, "@@ -") then None
    else
      match ReadRange(line[4..])
      case None => None
      case Some((oldRange, rest)) =>
        if !HasPrefix(rest, " +") then None
        else
          match ReadRange(rest[2..])
          case None => None
          case Some((newRange, end)) => if end == " @@" then Some((oldRange, newRange)) else None
  }

  predicate IsOpLine(line: Line) {
    line != "" && (line[0] == ' ' || line[0] == '-' || line[0] == '+')
  }

  function ReadOp(line: Line): Op
    requires IsOpLine(line)
  {
    Op(if line[0] == ' ' then Same else if line[0] == '-' then Removed else Added, line[1..])
  }

  /** The operations up to the next header, and the lines from there on. */
  function ReadBody(lines: seq<Line>): (r: (seq<Op>, seq<Line>))
    ensures |r.1| <= |lines|
  {
    if lines == [] || !IsOpLine(lines[0]) then ([], lines)
    else var (ops, rest) := ReadBody(lines[1..]); ([ReadOp(lines[0])] + ops, rest)
  }

  function ReadHunks(lines: seq<Line>): Option<seq<Hunk>>
    decreases |lines|
  {
    if lines == [] then Some([])
    else
      match ReadHeader(lines[0])
      case None => None
      case Some((oldRange, newRange)) =>
        var (body, rest) := ReadBody(lines[1..]);
        match ReadHunks(rest)
        case None => None
        case Some(hs) => Some([Hunk(oldRange, newRange, body)] + hs)
  }

  /** Reads hunks from text and applies them. */
  function PatchText(text: string, lines: seq<Line>): Option<seq<Line>> {
    match ReadHunks(SplitLines(text))
    case None => None
    case Some(hs) => ApplyPatch(hs, lines)
  }

  predicate NoDigit(rest: string) { rest == "" || !IsDigit(rest[0]) }

  lemma RangeRoundTrip(r: Range, rest: string)
    requires r.start >= 0 && NoDigit(rest) && (rest == "" || rest[0] != ',')
    ensures ReadRange(RenderRange(r) + rest) == Some((r, rest))
  {
    if r.count == 1 {
      ReadDecimal(r.start, rest);
    } else {
      var tail := "," + Decimal(r.count) + rest;
      assert RenderRange(r) + rest == Decimal(r.start) + tail;
      ReadDecimal(r.start, tail);
      assert tail[1..] == Decimal(r.count) + rest;
      ReadDecimal(r.count, rest);
    }
  }

  lemma HeaderRoundTrip(h: Hunk)
    requires Printable(h)
    ensures ReadHeader(HeaderLine(h)) == Some((h.oldRange, h.newRange))
  {
    var tail := " +" + RenderRange(h.newRange) + " @@";
    assert HeaderLine(h)[4..] == RenderRange(h.oldRange) + tail;
    RangeRoundTrip(h.oldRange, tail);
    assert tail[2..] == RenderRange(h.newRange) + " @@";
    RangeRoundTrip(h.newRange, " @@");
  }

  lemma {:induction false} BodyRoundTrip(body: seq<Op>, rest: seq<Line>)
    requires rest == [] || !IsOpLine(rest[0])
    ensures ReadBody(BodyLines(body) + rest) == (body, rest)
  {
    if body == [] {
      assert BodyLines(body) + rest == rest;
    } else {
      BodyRoundTrip(body[1..], rest);
      assert (BodyLines(body) + rest)[1..] == BodyLines(body[1..]) + rest;
      assert OpLine(body[0])[1..] == body[0].text && ReadOp(OpLine(body[0])) == body[0];
      assert body == [body[0]] + body[1..];
    }
  }

  /** A header line is never taken for an operation. */
  lemma HeadersStandOut(hs: seq<Hunk>)
    requires forall h :: h in hs ==> Printable(h)
    ensures AllLines(hs) == [] || !IsOpLine(AllLines(hs)[0])
  {
    if hs != [] {
      assert AllLines(hs)[0] == HeaderLine(hs[0]);
      assert HeaderLine(hs[0])[0] == '@';
    }
  }

  lemma OneHunkRoundTrip(h: Hunk, rest: seq<Line>, hs: seq<Hunk>)
    requires Printable(h) && (rest == [] || !IsOpLine(rest[0])) && ReadHunks(rest) == Some(hs)
    ensures ReadHunks(HunkLines(h) + rest) == Some([h] + hs)
  {
    hide RenderRange, ReadRange, ReadBody, ReadHeader, HeaderLine;
    HeaderRoundTrip(h);
    BodyRoundTrip(h.body, rest);
    var lines := HunkLines(h) + rest;
    assert lines[0] == HeaderLine(h);
    assert lines[1..] == BodyLines(h.body) + rest;
  }

  lemma NoHunks()
    ensures AllLines([]) == [] && ReadHunks([]) == Some([])
  {
  }

  lemma FirstHunkLines(hs: seq<Hunk>)
    requires hs != [] && forall h :: h in hs ==> Printable(h)
    ensures forall h :: h in hs[1..] ==> Printable(h)
    ensures AllLines(hs) == HunkLines(hs[0]) + AllLines(hs[1..])
  {
    hide HunkLines, Printable;
  }

  /** Hunks are recovered from the lines they print. */
  lemma {:induction false} HunksRoundTrip(hs: seq<Hunk>)
    requires forall h :: h in hs ==> Printable(h)
    ensures ReadHunks(AllLines(hs)) == Some(hs)
  {
    hide *;
    if hs == [] {
      NoHunks();
    } else {
      FirstHunkLines(hs);
      HunksRoundTrip(hs[1..]);
      HeadersStandOut(hs[1..]);
      OneHunkRoundTrip(hs[0], AllLines(hs[1..]), hs[1..]);
      assert hs == [hs[0]] + hs[1..];
    }
  }

  // ---------------------------------------------------------------- no line breaks in between

  lemma {:induction false} LinesOfSides(ops: seq<Op>)
    ensures forall k :: 0 <= k < |ops| ==> ops[k].text in OldSide(ops) || ops[k].text in NewSide(ops)
  {
    if ops != [] {
      LinesOfSides(ops[1..]);
      forall k | 0 <= k < |ops| ensures ops[k].text in OldSide(ops) || ops[k].text in NewSide(ops) {
        if k > 0 {
          assert ops[k] == ops[1..][k - 1];
        }
      }
    }
  }

  lemma SplitLinesFree(s: string)
    ensures AllFreeOf(SplitLines(s), '\n')
  {
    SplitParts(TrimNewline(s), '\n');
  }

  predicate BodyFree(h: Hunk) {
    forall k :: 0 <= k < |h.body| ==> '\n' !in h.body[k].text
  }

  lemma {:induction false} AllLinesFree(hs: seq<Hunk>)
    requires forall h :: h in hs ==> Printable(h) && BodyFree(h)
    ensures AllFreeOf(AllLines(hs), '\n')
  {
    if hs != [] {
      hide HunkLines, HeaderLine;
      AllLinesFree(hs[1..]);
      HunkLinesFree(hs[0]);
    }
  }

  lemma HunkLinesFree(h: Hunk)
    requires Printable(h) && BodyFree(h)
    ensures AllFreeOf(HunkLines(h), '\n')
  {
    assert '\n' !in HeaderLine(h);
    forall i | 0 <= i < |HunkLines(h)| ensures '\n' !in HunkLines(h)[i] {
      if i > 0 {
        assert HunkLines(h)[i] == OpLine(h.body[i - 1]);
      }
    }
  }

  lemma HunksOfTexts(hs: seq<Hunk>, ops: seq<Op>, c: nat, a: seq<Line>, b: seq<Line>)
    requires HunksShowing(hs, ops, c) && IsScript(ops, a, b)
    requires AllFreeOf(a, '\n') && AllFreeOf(b, '\n')
    ensures forall h :: h in hs ==> Printable(h) && BodyFree(h)
  {
    LinesOfSides(ops);
    var runs: seq<(nat, nat)> :| ShownRuns(ops, c, runs) && AreHunksOf(hs, ops, runs);
    hide Shown, OldSide, NewSide, HunkOf, Printable, BodyFree;
    assert forall k :: 0 <= k < |ops| ==> '\n' !in ops[k].text;
    forall h | h in hs ensures Printable(h) && BodyFree(h) {
      var r :| 0 <= r < |hs| && hs[r] == h;
      HunkOfText(ops, runs[r].0, runs[r].1);
    }
  }

  lemma HunkOfText(ops: seq<Op>, lo: nat, hi: nat)
    requires lo <= hi <= |ops| && forall k :: 0 <= k < |ops| ==> '\n' !in ops[k].text
    ensures Printable(HunkOf(ops, lo, hi)) && BodyFree(HunkOf(ops, lo, hi))
  {
    hide OldSide, NewSide;
    HunkNumbers(ops, lo, hi);
  }

  // ---------------------------------------------------------------- the entry point

  /** The text reads back as the hunks of a diff of a and b that show exactly the lines
      at most c lines away from a change. */
  ghost predicate PrintsDiff(text: string, a: seq<Line>, b: seq<Line>, c: nat) {
    exists ops, hs :: DiffOf(ops, a, b) && HunksWithin(hs, ops, c) && ReadHunks(SplitLines(text)) == Some(hs)
  }

  /** The two middles are so long that the product of their lengths wraps past the size
      guard of the diff. */
  predicate FailsOn(a: seq<Line>, b: seq<Line>) { GuardFooled(|Middle(a, b).0|, |Middle(a, b).1|) }

  /** The unified diff of two texts, or None for a run-time failure. It is empty exactly when they agree up to a final
      newline or the context window overflows; otherwise what follows its two label
      lines shows the lines near a change and is a patch from the old lines to the new ones. */
  method UnifiedDiff(oldText: string, newText: string, oldLabel: string, newLabel: string, ctxLines: int)
    returns (text: Option<string>)
    requires |SplitLines(oldText)| + |SplitLines(newText)| <= 0x0400_0000_0000_0000
    requires -0x8000_0000_0000_0000 <= ctxLines <= 0x7FFF_FFFF_FFFF_FFFF
    ensures text.None? <==> FailsOn(SplitLines(oldText), SplitLines(newText))
    ensures text == Some("") <==>
            && !FailsOn(SplitLines(oldText), SplitLines(newText))
            && (|| EqualUpToFinalNewline(oldText, newText)
                || !WindowFits(SplitLines(oldText), SplitLines(newText), ctxLines))
    ensures text.Some? && ctxLines <= 0x4000_0000_0000_0000 ==>
              (text.value == "" <==> EqualUpToFinalNewline(oldText, newText))
    ensures text.Some? && text.value != "" ==>
              var labels := "--- " + oldLabel + "\n+++ " + newLabel + "\n";
              && HasPrefix(text.value, labels)
              && var body := text.value[|labels|..];
              && PrintsDiff(body, SplitLines(oldText), SplitLines(newText), Max(ctxLines, 0))
              && PatchText(body, SplitLines(oldText)) == Some(SplitLines(newText))
  {
    var a, b := SplitLines(oldText), SplitLines(newText);
    SameLines(oldText, newText);
    var diff := DiffLines(a, b);
    if diff.None? {
      return None;
    }
    var ops := diff.value;
    SidesLength(ops);
    var hs := BuildHunks(ops, ctxLines);
    PatchExactlyWhen(ops, a, b, ctxLines, hs);
    if ctxLines <= 0x4000_0000_0000_0000 {
      OrdinaryContextFits(a, b, ctxLines);
    }
    if |hs| == 0 {
      return Some("");
    }
    SplitLinesFree(oldText);
    SplitLinesFree(newText);
    HunksOfTexts(hs, ops, Max(ctxLines, 0), a, b);

    var printed := PrintHunks(hs);
    PrintedIsPatch(hs, a);
    assert PrintsDiff(printed, a, b, Max(ctxLines, 0));
    var labels := "--- " + oldLabel + "\n+++ " + newLabel + "\n";
    var whole := labels + printed;
    assert whole[|labels|..] == printed;
    text := Some(whole);
  }

  /** The text still to be printed from hunk i on. */
  ghost function Unprinted(hs: seq<Hunk>, i: nat): string
    requires i <= |hs| && forall h :: h in hs ==> Printable(h)
  {
    Unlines(AllLines(hs[i..]))
  }

  lemma PrintStep(hs: seq<Hunk>, i: nat)
    requires i < |hs| && forall h :: h in hs ==> Printable(h)
    ensures Unprinted(hs, i) == Unlines(HunkLines(hs[i])) + Unprinted(hs, i + 1)
  {
    hide HunkLines, Unlines, Printable;
    assert hs[i..][1..] == hs[i + 1..];
    UnlinesAppend(HunkLines(hs[i]), AllLines(hs[i + 1..]));
  }

  lemma PrintEnds(hs: seq<Hunk>)
    requires forall h :: h in hs ==> Printable(h)
    ensures Unprinted(hs, 0) == Unlines(AllLines(hs)) && Unprinted(hs, |hs|) == ""
  {
    hide HunkLines, Printable;
    assert hs[0..] == hs && hs[|hs|..] == [];
  }

  method PrintHunks(hs: seq<Hunk>) returns (text: string)
    requires forall h :: h in hs ==> Printable(h)
    ensures text == Unlines(AllLines(hs))
  {
    hide *;
    text := "";
    PrintEnds(hs);
    for i := 0 to |hs|
      invariant text + Unprinted(hs, i) == Unprinted(hs, 0)
    {
      PrintStep(hs, i);
      text := text + Unlines(HunkLines(hs[i]));
    }
  }

  lemma PrintedIsPatch(hs: seq<Hunk>, a: seq<Line>)
    requires forall h :: h in hs ==> Printable(h) && BodyFree(h)
    ensures ReadHunks(SplitLines(Unlines(AllLines(hs)))) == Some(hs)
    ensures PatchText(Unlines(AllLines(hs)), a) == ApplyPatch(hs, a)
  {
    AllLinesFree(hs);
    SplitUnlines(AllLines(hs));
    HunksRoundTrip(hs);
  }

  /** How ranges and operations are printed. */
  lemma PrintedParts()
    ensures RenderRange(Range(0, 0)) == "0,0" && RenderRange(Range(1, 1)) == "1"
    ensures RenderRange(Range(12, 2)) == "12,2" && RenderRange(Range(13, 1)) == "13"
    ensures OpLine(Op(Same, "a")) == " a" && OpLine(Op(Removed, "b")) == "-b" && OpLine(Op(Added, "x")) == "+x"
  {
    assert Decimal(0) == "0" && Decimal(1) == "1" && Decimal(2) == "2";
    assert Decimal(12) == Decimal(1) + "2" == "12" && Decimal(13) == Decimal(1) + "3" == "13";
  }

  /** The lines of an insertion before the first line and of a removal further down. */
  lemma PrintExample()
    ensures HunkLines(Hunk(Range(0, 0), Range(1, 1), [Op(Added, "x")])) == ["@@ -0,0 +1 @@", "+x"]
    ensures HunkLines(Hunk(Range(12, 2), Range(13, 1), [Op(Same, "a"), Op(Removed, "b")])) ==
            ["@@ -12,2 +13 @@", " a", "-b"]
  {
    hide RenderRange, OpLine;
    PrintedParts();
    var insertion := Hunk(Range(0, 0), Range(1, 1), [Op(Added, "x")]);
    var removal := Hunk(Range(12, 2), Range(13, 1), [Op(Same, "a"), Op(Removed, "b")]);
    assert HeaderLine(insertion) == "@@ -0,0 +1 @@" && HeaderLine(removal) == "@@ -12,2 +13 @@";
    assert BodyLines(insertion.body) == ["+x"] && BodyLines(removal.body) == [" a", "-b"];
  }
}
