/** The hunk builder of cmd/lsctl/internal/render/diff.go, and what a unified diff
    means: a patch that turns the old lines into the new ones. */
module Hunks {
  import opened Basics
  import opened LineDiff

  /** A range of lines as the header of a hunk prints it. */
  datatype Range = Range(start: int, count: nat)

  datatype Hunk = Hunk(oldRange: Range, newRange: Range, body: seq<Op>)

  /** An empty range is numbered by the line before it. */
  function Span(start: int, count: nat): Range {
    if count == 0 then Range(start - 1, 0) else Range(start, count)
  }

  // ---------------------------------------------------------------- applying a patch

  /** How many lines stand before a range, by the numbering rules of POSIX.1-2017 diff,
      "Diff -u or -U Output Format". */
  function Before(r: Range): int { if r.count == 0 then r.start else r.start - 1 }

  /** Applies hunks to the old lines from position p on, q lines having been written.
      Ranges must lie in order, old lines must match and both counts must be exact. */
  function ApplyFrom(hs: seq<Hunk>, lines: seq<Line>, p: nat, q: nat): Option<seq<Line>>
    requires p <= |lines|
  {
    if hs == [] then Some(lines[p..])
    else
      var h := hs[0];
      var at := Before(h.oldRange);
      if at < p || at + h.oldRange.count > |lines| || Before(h.newRange) != q + at - p then None
      else if OldSide(h.body) != lines[at..at + h.oldRange.count] || |NewSide(h.body)| != h.newRange.count then None
      else
        match ApplyFrom(hs[1..], lines, at + h.oldRange.count, q + at - p + h.newRange.count)
        case None => None
        case Some(rest) => Some(lines[p..at] + NewSide(h.body) + rest)
  }

  function ApplyPatch(hs: seq<Hunk>, lines: seq<Line>): Option<seq<Line>> {
    ApplyFrom(hs, lines, 0, 0)
  }

  // ---------------------------------------------------------------- which lines are shown

  /** The change at i asks for line k to be shown; a window that overflows shows nothing. */
  predicate Marks(ops: seq<Op>, c: nat, i: nat, k: int) {
    i < |ops| && ops[i].kind != Same && i + c <= MAX_INT && i - c <= k <= i + c
  }

  ghost predicate NearChange(ops: seq<Op>, c: nat, n: nat, k: int) {
    exists i: nat :: i < n && Marks(ops, c, i, k)
  }

  /** Line k of the script is within c lines of a change. */
  ghost predicate Shown(ops: seq<Op>, c: nat, k: int) {
    NearChange(ops, c, |ops|, k)
  }

  /** Half-open intervals below n, in order, with a gap between any two. */
  ghost predicate Separated(runs: seq<(nat, nat)>, n: nat) {
    && (forall r :: 0 <= r < |runs| ==> runs[r].0 < runs[r].1 <= n)
    && (forall r, s :: 0 <= r < s < |runs| ==> runs[r].1 < runs[s].0)
  }

  predicate InRun(runs: seq<(nat, nat)>, r: nat, k: int) {
    r < |runs| && runs[r].0 <= k < runs[r].1
  }

  ghost predicate InSomeRun(runs: seq<(nat, nat)>, k: int) {
    exists r: nat :: InRun(runs, r, k)
  }

  /** The runs are exactly the maximal stretches of shown lines. */
  ghost predicate ShownRuns(ops: seq<Op>, c: nat, runs: seq<(nat, nat)>) {
    && Separated(runs, |ops|)
    && forall k :: 0 <= k < |ops| ==> (InSomeRun(runs, k) <==> Shown(ops, c, k))
  }

  /** The hunk for the script lines lo..hi: both ranges count the lines before and inside. */
  function HunkOf(ops: seq<Op>, lo: nat, hi: nat): Hunk
    requires lo <= hi <= |ops|
  {
    Hunk(Span(|OldSide(ops[..lo])| + 1, |OldSide(ops[lo..hi])|),
         Span(|NewSide(ops[..lo])| + 1, |NewSide(ops[lo..hi])|),
         ops[lo..hi])
  }

  ghost predicate AreHunksOf(hs: seq<Hunk>, ops: seq<Op>, runs: seq<(nat, nat)>)
  {
    && |hs| == |runs|
    && forall r :: 0 <= r < |hs| ==> runs[r].0 <= runs[r].1 <= |ops| && hs[r] == HunkOf(ops, runs[r].0, runs[r].1)
  }

  /** Line k of the script is at most c lines away from a change. */
  ghost predicate WithinContext(ops: seq<Op>, c: nat, k: int) {
    exists i: nat :: i < |ops| && ops[i].kind != Same && i - c <= k <= i + c
  }

  /** If no window that matters overflows, shown means within the context of a change. */
  lemma ShownIsDistance(ops: seq<Op>, c: nat, k: int)
    requires |ops| <= MAX_OPS && FirstChange(ops) + c <= MAX_INT && 0 <= k < |ops|
    ensures Shown(ops, c, k) <==> WithinContext(ops, c, k)
  {
    if WithinContext(ops, c, k) {
      var i: nat :| i < |ops| && ops[i].kind != Same && i - c <= k <= i + c;
      if i + c > MAX_INT {
        assert Marks(ops, c, FirstChange(ops), k) || k > FirstChange(ops) + c;
      }
      assert Marks(ops, c, i, k) || Marks(ops, c, FirstChange(ops), k);
    }
  }

  /** The hunks lie exactly at the maximal stretches of lines within c lines of a change. */
  ghost predicate HunksWithin(hs: seq<Hunk>, ops: seq<Op>, c: nat) {
    exists runs: seq<(nat, nat)> :: WithinRuns(ops, c, runs) && AreHunksOf(hs, ops, runs)
  }

  ghost predicate WithinRuns(ops: seq<Op>, c: nat, runs: seq<(nat, nat)>) {
    && Separated(runs, |ops|)
    && forall k :: 0 <= k < |ops| ==> (InSomeRun(runs, k) <==> WithinContext(ops, c, k))
  }

  lemma ShowingIsWithin(hs: seq<Hunk>, ops: seq<Op>, c: nat)
    requires |ops| <= MAX_OPS && FirstChange(ops) + c <= MAX_INT && HunksShowing(hs, ops, c)
    ensures HunksWithin(hs, ops, c)
  {
    hide AreHunksOf, Shown, WithinContext, InSomeRun;
    var runs: seq<(nat, nat)> :| ShownRuns(ops, c, runs) && AreHunksOf(hs, ops, runs);
    forall k | 0 <= k < |ops| ensures Shown(ops, c, k) <==> WithinContext(ops, c, k) {
      ShownIsDistance(ops, c, k);
    }
    assert WithinRuns(ops, c, runs);
  }

  /** The hunks lie exactly at the maximal stretches of shown lines. */
  ghost predicate HunksShowing(hs: seq<Hunk>, ops: seq<Op>, c: nat) {
    exists runs: seq<(nat, nat)> :: ShownRuns(ops, c, runs) && AreHunksOf(hs, ops, runs)
  }

  /** The runs are exactly the maximal stretches of set flags below n. */
  ghost predicate RunsOf(keep: seq<bool>, n: nat, runs: seq<(nat, nat)>)
    requires n <= |keep|
  {
    && Separated(runs, n)
    && (forall k :: 0 <= k < n ==> (InSomeRun(runs, k) <==> keep[k]))
    && (runs != [] && runs[|runs| - 1].1 == n && n < |keep| ==> !keep[n])
  }

  /** The hunks lie exactly at the maximal stretches of kept lines. */
  ghost predicate HunksOfKept(hs: seq<Hunk>, ops: seq<Op>, keep: seq<bool>)
    requires |keep| == |ops|
  {
    exists runs: seq<(nat, nat)> :: RunsOf(keep, |ops|, runs) && AreHunksOf(hs, ops, runs)
  }

  // ---------------------------------------------------------------- building hunks

  /** Sets the flags lo..hi. */
  method KeepWindow(keep: array<bool>, lo: nat, hi: int)
    requires hi < keep.Length
    modifies keep
    ensures forall l :: 0 <= l < keep.Length ==> (keep[l] <==> old(keep[l]) || lo <= l <= hi)
  {
    var k := lo;
    while k <= hi
      invariant lo <= k && (k <= hi + 1 || k == lo)
      invariant forall l :: 0 <= l < keep.Length ==> (keep[l] <==> old(keep[l]) || lo <= l < k)
      decreases hi - k
    {
      keep[k] := true;
      k := k + 1;
    }
  }

  method KeepNearChanges(ops: seq<Op>, c: nat) returns (keep: array<bool>)
    requires |ops| <= MAX_OPS && c <= MAX_INT
    ensures fresh(keep) && keep.Length == |ops|
    ensures forall k :: 0 <= k < |ops| ==> (keep[k] <==> Shown(ops, c, k))
  {
    keep := new bool[|ops|](_ => false);
    for i := 0 to |ops|
      invariant forall k :: 0 <= k < |ops| ==> (keep[k] <==> NearChange(ops, c, i, k))
    {
      ghost var was := keep[..];
      if ops[i].kind != Same {
        KeepWindow(keep, Max(0, i - c), Min(|ops| - 1, WrapInt(i + c)));
      }
      hide NearChange, Marks, WrapInt, Max, Min;
      forall l | 0 <= l < |ops| ensures keep[l] <==> NearChange(ops, c, i + 1, l) {
        WindowMarks(ops, c, i, l);
        NearNextChange(ops, c, i, l);
        assert was[l] <==> NearChange(ops, c, i, l);
      }
    }
  }

  /** The window that is kept around a change; a wrapped upper end lies below zero. */
  lemma WindowMarks(ops: seq<Op>, c: nat, i: nat, l: nat)
    requires i < |ops| <= MAX_OPS && c <= MAX_INT && l < |ops|
    ensures Marks(ops, c, i, l) <==>
            ops[i].kind != Same && Max(0, i - c) <= l <= Min(|ops| - 1, WrapInt(i + c))
  {
  }

  lemma NearNextChange(ops: seq<Op>, c: nat, i: nat, l: int)
    requires i < |ops|
    ensures NearChange(ops, c, i + 1, l) <==> NearChange(ops, c, i, l) || Marks(ops, c, i, l)
  {
    if NearChange(ops, c, i, l) {
      var x: nat :| x < i && Marks(ops, c, x, l);
      assert x < i + 1 && Marks(ops, c, x, l);
    }
  }

  /** Both sides of a script one line longer. */
  lemma SidesStep(ops: seq<Op>, lo: nat, k: nat)
    requires lo <= k < |ops|
    ensures OldSide(ops[lo..k + 1]) == OldSide(ops[lo..k]) + if ops[k].kind == Added then [] else [ops[k].text]
    ensures NewSide(ops[lo..k + 1]) == NewSide(ops[lo..k]) + if ops[k].kind == Removed then [] else [ops[k].text]
  {
    assert ops[lo..k + 1] == ops[lo..k] + [ops[k]];
    SidesAppend(ops[lo..k], [ops[k]]);
  }

  /** Reads one stretch of kept lines, counting both sides. */
  method TakeRun(ops: seq<Op>, keep: seq<bool>, start: nat) returns (i: nat, aCount: nat, bCount: nat)
    requires |keep| == |ops| && start < |ops| && keep[start]
    ensures start < i <= |ops|
    ensures forall k :: start <= k < i ==> keep[k]
    ensures i < |ops| ==> !keep[i]
    ensures aCount == |OldSide(ops[start..i])| && bCount == |NewSide(ops[start..i])|
  {
    i, aCount, bCount := start, 0, 0;
    while i < |ops| && keep[i]
      invariant start <= i <= |ops|
      invariant i == start ==> keep[i]
      invariant aCount == |OldSide(ops[start..i])| && bCount == |NewSide(ops[start..i])|
      invariant forall k :: start <= k < i ==> keep[k]
      decreases |ops| - i
    {
      SidesStep(ops, start, i);
      match ops[i].kind {
        case Same => aCount, bCount := aCount + 1, bCount + 1;
        case Removed => aCount := aCount + 1;
        case Added => bCount := bCount + 1;
      }
      i := i + 1;
    }
  }

  lemma SidesSplit(ops: seq<Op>, lo: nat, hi: nat)
    requires lo <= hi <= |ops|
    ensures OldSide(ops[..hi]) == OldSide(ops[..lo]) + OldSide(ops[lo..hi])
    ensures NewSide(ops[..hi]) == NewSide(ops[..lo]) + NewSide(ops[lo..hi])
  {
    assert ops[..hi] == ops[..lo] + ops[lo..hi];
    SidesAppend(ops[..lo], ops[lo..hi]);
  }

  lemma CountLine(ops: seq<Op>, k: nat)
    requires k < |ops|
    ensures |OldSide(ops[..k + 1])| == |OldSide(ops[..k])| + if ops[k].kind == Added then 0 else 1
    ensures |NewSide(ops[..k + 1])| == |NewSide(ops[..k])| + if ops[k].kind == Removed then 0 else 1
  {
    SidesStep(ops, 0, k);
    assert ops[0..k + 1] == ops[..k + 1] && ops[0..k] == ops[..k];
  }

  lemma SkipLine(keep: seq<bool>, n: nat, runs: seq<(nat, nat)>)
    requires n < |keep| && RunsOf(keep, n, runs) && !keep[n]
    ensures RunsOf(keep, n + 1, runs)
  {
    assert forall r: nat :: !InRun(runs, r, n);
  }

  lemma CloseRun(keep: seq<bool>, lo: nat, hi: nat, runs: seq<(nat, nat)>)
    requires lo < hi <= |keep| && RunsOf(keep, lo, runs)
    requires forall k :: lo <= k < hi ==> keep[k]
    requires hi < |keep| ==> !keep[hi]
    ensures RunsOf(keep, hi, runs + [(lo, hi)])
  {
    AddRun(runs, lo, hi);
    forall k | 0 <= k < hi ensures InSomeRun(runs + [(lo, hi)], k) <==> keep[k] {
      if k < lo {
        assert InSomeRun(runs, k) <==> keep[k];
      }
    }
  }

  /** A stretch of kept lines that cannot be extended becomes the next hunk. */
  lemma NextHunk(hs: seq<Hunk>, ops: seq<Op>, keep: seq<bool>, runs: seq<(nat, nat)>, lo: nat, hi: nat)
    requires lo < hi <= |ops| == |keep| && RunsOf(keep, lo, runs) && AreHunksOf(hs, ops, runs)
    requires forall k :: lo <= k < hi ==> keep[k]
    requires hi < |keep| ==> !keep[hi]
    ensures RunsOf(keep, hi, runs + [(lo, hi)])
    ensures AreHunksOf(hs + [HunkOf(ops, lo, hi)], ops, runs + [(lo, hi)])
  {
    hide OldSide, NewSide, HunkOf, InSomeRun;
    CloseRun(keep, lo, hi, runs);
  }

  /** Turns the kept stretches of a script into hunks, tracking both line numbers. */
  method GroupKept(ops: seq<Op>, keep: seq<bool>) returns (hs: seq<Hunk>)
    requires |keep| == |ops|
    ensures HunksOfKept(hs, ops, keep)
  {
    hs := [];
    ghost var runs: seq<(nat, nat)> := [];
    var aLine, bLine := 1, 1;
    var i := 0;
    assert RunsOf(keep, 0, runs) && AreHunksOf(hs, ops, runs);
    assert OldSide(ops[..0]) == [] && NewSide(ops[..0]) == [];
    hide OldSide, NewSide, RunsOf, AreHunksOf;
    while i < |ops|
      invariant 0 <= i <= |ops|
      invariant aLine == |OldSide(ops[..i])| + 1 && bLine == |NewSide(ops[..i])| + 1
      invariant RunsOf(keep, i, runs)
      invariant AreHunksOf(hs, ops, runs)
    {
      if !keep[i] {
        CountLine(ops, i);
        SkipLine(keep, i, runs);
        match ops[i].kind {
          case Same => aLine, bLine := aLine + 1, bLine + 1;
          case Removed => aLine := aLine + 1;
          case Added => bLine := bLine + 1;
        }
        i := i + 1;
        continue;
      }

      var start, aStart, bStart := i, aLine, bLine;
      var end, aCount, bCount := TakeRun(ops, keep, start);
      i := end;
      SidesSplit(ops, start, end);
      aLine, bLine := aLine + aCount, bLine + bCount;

      NextHunk(hs, ops, keep, runs, start, end);
      hs := hs + [Hunk(Span(aStart, aCount), Span(bStart, bCount), ops[start..i])];
      runs := runs + [(start, end)];
    }
  }

  /** All hunks of a script with ctxLines lines of context. */
  method BuildHunks(ops: seq<Op>, ctxLines: int) returns (hs: seq<Hunk>)
    requires |ops| <= MAX_OPS && -MAX_INT - 1 <= ctxLines <= MAX_INT
    ensures HunksShowing(hs, ops, Max(ctxLines, 0))
    ensures FirstChange(ops) + Max(ctxLines, 0) <= MAX_INT ==> HunksWithin(hs, ops, Max(ctxLines, 0))
  {
    var c := Max(ctxLines, 0);
    var keep := KeepNearChanges(ops, c);
    hs := GroupKept(ops, keep[..]);
    ghost var runs: seq<(nat, nat)> :| RunsOf(keep[..], |ops|, runs) && AreHunksOf(hs, ops, runs);
    assert ShownRuns(ops, c, runs);
    if FirstChange(ops) + c <= MAX_INT {
      ShowingIsWithin(hs, ops, c);
    }
  }

  lemma AddRun(runs: seq<(nat, nat)>, lo: nat, hi: nat)
    requires Separated(runs, lo) && lo < hi
    requires runs != [] ==> runs[|runs| - 1].1 < lo
    ensures Separated(runs + [(lo, hi)], hi)
    ensures forall k :: InSomeRun(runs + [(lo, hi)], k) <==> InSomeRun(runs, k) || lo <= k < hi
  {
    var more := runs + [(lo, hi)];
    forall k ensures InSomeRun(more, k) <==> InSomeRun(runs, k) || lo <= k < hi {
      if InSomeRun(runs, k) {
        var r: nat :| InRun(runs, r, k);
        assert InRun(more, r, k);
      }
      if lo <= k < hi {
        assert InRun(more, |runs|, k);
      }
      if InSomeRun(more, k) && !(lo <= k < hi) {
        var r: nat :| InRun(more, r, k);
        assert InRun(runs, r, k);
      }
    }
  }
}
