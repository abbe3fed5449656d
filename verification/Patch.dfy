/** The unified diff as a patch: hunk by hunk, and as text. */
module Patch {
  import opened Basics
  import opened LineDiff
  import opened Hunks

  // ---------------------------------------------------------------- hunks form a patch

  function RunEnd(runs: seq<(nat, nat)>, r: nat): nat
    requires r <= |runs|
  {
    if r == 0 then 0 else runs[r - 1].1
  }

  ghost predicate ChangesInRuns(ops: seq<Op>, runs: seq<(nat, nat)>) {
    forall k :: 0 <= k < |ops| && ops[k].kind != Same ==> InSomeRun(runs, k)
  }

  lemma {:induction false} KeptLinesAgree(ops: seq<Op>)
    requires forall k :: 0 <= k < |ops| ==> ops[k].kind == Same
    ensures OldSide(ops) == NewSide(ops)
  {
    if ops != [] {
      KeptLinesAgree(ops[1..]);
    }
  }

  lemma NoRunInGap(runs: seq<(nat, nat)>, n: nat, r: nat, k: nat)
    requires Separated(runs, n) && r <= |runs| && RunEnd(runs, r) <= k
    requires r < |runs| ==> k < runs[r].0
    ensures forall s: nat :: !InRun(runs, s, k)
  {
    forall s: nat | s < |runs| ensures !InRun(runs, s, k) {
      if s < r {
        assert runs[s].1 <= runs[r - 1].1;
      } else {
        assert runs[r].0 <= runs[s].0;
      }
    }
  }

  /** Between two hunks both texts have the same lines. */
  lemma GapAgrees(ops: seq<Op>, runs: seq<(nat, nat)>, r: nat, hi: nat)
    requires Separated(runs, |ops|) && ChangesInRuns(ops, runs) && r <= |runs|
    requires hi == if r < |runs| then runs[r].0 else |ops|
    ensures RunEnd(runs, r) <= hi
    ensures OldSide(ops[RunEnd(runs, r)..hi]) == NewSide(ops[RunEnd(runs, r)..hi])
  {
    var lo := RunEnd(runs, r);
    forall k | lo <= k < hi ensures ops[k].kind == Same {
      assert forall s: nat :: !InRun(runs, s, k) by {
        NoRunInGap(runs, |ops|, r, k);
      }
    }
    KeptLinesAgree(ops[lo..hi]);
  }

  /** One hunk applied: the gap is copied, the hunk's old lines become its new lines. */
  lemma ApplyHunk(hs: seq<Hunk>, lines: seq<Line>, p: nat, q: nat, gap: seq<Line>, tail: seq<Line>, rest: seq<Line>)
    requires hs != [] && p <= |lines|
    requires
      var h := hs[0];
      && lines[p..] == gap + OldSide(h.body) + tail
      && Before(h.oldRange) == p + |gap| && h.oldRange.count == |OldSide(h.body)|
      && Before(h.newRange) == q + |gap| && h.newRange.count == |NewSide(h.body)|
      && ApplyFrom(hs[1..], lines, p + |gap| + |OldSide(h.body)|, q + |gap| + |NewSide(h.body)|) == Some(rest)
    ensures ApplyFrom(hs, lines, p, q) == Some(gap + NewSide(hs[0].body) + rest)
  {
    var at, count := p + |gap|, |OldSide(hs[0].body)|;
    assert lines[p..][..|gap|] == lines[p..at] == gap;
    assert lines[p..][|gap|..|gap| + count] == lines[at..at + count] == OldSide(hs[0].body);
  }

  /** Applying hs after the first e script lines yields the rest of the new text. */
  ghost predicate RestApplies(hs: seq<Hunk>, ops: seq<Op>, e: nat) {
    && e <= |ops|
    && OldSide(ops) == OldSide(ops[..e]) + OldSide(ops[e..])
    && ApplyFrom(hs, OldSide(ops), |OldSide(ops[..e])|, |NewSide(ops[..e])|) == Some(NewSide(ops[e..]))
  }

  lemma NothingLeft(ops: seq<Op>, e: nat)
    requires e <= |ops| && OldSide(ops[e..|ops|]) == NewSide(ops[e..|ops|])
    ensures RestApplies([], ops, e)
  {
    Halves(ops, e);
    assert ops[e..|ops|] == ops[e..];
  }

  lemma CutPrefix(x: seq<Line>, y: seq<Line>)
    ensures (x + y)[|x|..] == y
  {
  }

  /** Both ranges of a hunk lie where its lines lie in the two texts, with exact counts. */
  lemma HunkNumbers(ops: seq<Op>, lo: nat, hi: nat)
    requires lo <= hi <= |ops|
    ensures var h := HunkOf(ops, lo, hi);
            var p, q := |OldSide(ops[..lo])|, |NewSide(ops[..lo])|;
            && h.body == ops[lo..hi]
            && h.oldRange.count == |OldSide(h.body)| && h.newRange.count == |NewSide(h.body)|
            && h.oldRange.start == (if h.oldRange.count == 0 then p else p + 1)
            && h.newRange.start == (if h.newRange.count == 0 then q else q + 1)
            && Before(h.oldRange) == p && Before(h.newRange) == q
  {
  }

  /** ApplyHunk for the hunk of the script lines lo..hi, after the gap e..lo. */
  lemma HunkPlaced(hs: seq<Hunk>, ops: seq<Op>, e: nat, lo: nat, hi: nat)
    requires e <= lo <= hi <= |ops|
    requires OldSide(ops[e..lo]) == NewSide(ops[e..lo])
    requires RestApplies(hs, ops, hi)
    ensures RestApplies([HunkOf(ops, lo, hi)] + hs, ops, e)
  {
    hide OldSide, NewSide, Kept, ApplyFrom;
    var gap, body, tail := ops[e..lo], ops[lo..hi], ops[hi..];
    var all := [HunkOf(ops, lo, hi)] + hs;
    assert all[1..] == hs;
    Halves(ops, e);
    assert ops[e..] == gap + body + tail;
    SidesOfThree(gap, body, tail);
    SidesSplit(ops, e, lo);
    SidesSplit(ops, lo, hi);
    var p, q := |OldSide(ops[..e])|, |NewSide(ops[..e])|;
    HunkNumbers(ops, lo, hi);
    assert OldSide(ops)[p..] == OldSide(gap) + OldSide(body) + OldSide(tail) by {
      CutPrefix(OldSide(ops[..e]), OldSide(ops[e..]));
    }
    ApplyHunk(all, OldSide(ops), p, q, OldSide(gap), OldSide(tail), NewSide(tail));
  }

  /** From the end of any hunk on, applying the rest yields the rest of the new text. */
  lemma {:induction false} ApplyRuns(hs: seq<Hunk>, ops: seq<Op>, runs: seq<(nat, nat)>, r: nat)
    requires Separated(runs, |ops|) && AreHunksOf(hs, ops, runs) && ChangesInRuns(ops, runs) && r <= |runs|
    ensures RestApplies(hs[r..], ops, RunEnd(runs, r))
    decreases |runs| - r
  {
    hide OldSide, NewSide, Kept, ApplyFrom;
    var e := RunEnd(runs, r);
    if r == |runs| {
      GapAgrees(ops, runs, r, |ops|);
      NothingLeft(ops, e);
      assert hs[r..] == [];
    } else {
      var lo, hi := runs[r].0, runs[r].1;
      GapAgrees(ops, runs, r, lo);
      ApplyRuns(hs, ops, runs, r + 1);
      assert hs[r..] == [HunkOf(ops, lo, hi)] + hs[r + 1..];
      HunkPlaced(hs[r + 1..], ops, e, lo, hi);
    }
  }

  lemma Halves(ops: seq<Op>, k: nat)
    requires k <= |ops|
    ensures OldSide(ops) == OldSide(ops[..k]) + OldSide(ops[k..])
  {
    assert ops == ops[..k] + ops[k..];
    SidesAppend(ops[..k], ops[k..]);
  }

  // ---------------------------------------------------------------- exactly when the patch is right

  /** The context window around the first change does not overflow Go's int. */
  predicate WindowFits(a: seq<Line>, b: seq<Line>, ctxLines: int) {
    a == b || CommonPrefix(a, b) + Max(ctxLines, 0) <= MAX_INT
  }

  /** Only a context of astronomical size overflows. */
  lemma OrdinaryContextFits(a: seq<Line>, b: seq<Line>, ctxLines: int)
    requires |a| <= 0x0400_0000_0000_0000 && ctxLines <= 0x4000_0000_0000_0000
    ensures WindowFits(a, b, ctxLines)
  {
  }

  lemma ShownIffFirstFits(ops: seq<Op>, c: nat, runs: seq<(nat, nat)>)
    requires |ops| <= MAX_OPS && ShownRuns(ops, c, runs)
    ensures FirstChange(ops) + c <= MAX_INT ==> ChangesInRuns(ops, runs)
    ensures FirstChange(ops) < |ops| ==> (runs == [] <==> FirstChange(ops) + c > MAX_INT)
    ensures FirstChange(ops) == |ops| ==> runs == []
  {
    var f := FirstChange(ops);
    if f + c <= MAX_INT {
      forall k | 0 <= k < |ops| && ops[k].kind != Same ensures InSomeRun(runs, k) {
        assert Marks(ops, c, f, k) || Marks(ops, c, k, k);
        assert Shown(ops, c, k);
      }
      if f < |ops| {
        assert InSomeRun(runs, f);
      }
    }
    if f == |ops| || f + c > MAX_INT {
      assert forall k :: !Shown(ops, c, k);
      assert runs != [] ==> InRun(runs, 0, runs[0].0) && InSomeRun(runs, runs[0].0);
    }
  }

  /** The hunks turn the old lines into the new ones exactly when the window fits;
      and none are produced exactly when the lines agree or it does not. */
  lemma PatchExactlyWhen(ops: seq<Op>, a: seq<Line>, b: seq<Line>, ctxLines: int, hs: seq<Hunk>)
    requires |ops| <= MAX_OPS && DiffOf(ops, a, b) && HunksShowing(hs, ops, Max(ctxLines, 0))
    ensures ApplyPatch(hs, a) == Some(b) <==> WindowFits(a, b, ctxLines)
    ensures hs == [] <==> a == b || !WindowFits(a, b, ctxLines)
  {
    var c := Max(ctxLines, 0);
    var runs: seq<(nat, nat)> :| ShownRuns(ops, c, runs) && AreHunksOf(hs, ops, runs);
    ShownIffFirstFits(ops, c, runs);
    if a == b {
      FirstChangePast(a, []);
      assert ops + [] == ops;
      assert a[0..] == a;
    } else if WindowFits(a, b, ctxLines) {
      ApplyRuns(hs, ops, runs, 0);
      assert hs[0..] == hs && ops[..0] == [] && ops[0..] == ops;
    } else {
      assert a[0..] == a;
    }
  }

  /** A context of MaxInt lines hides the change after one shared line. */
  lemma HugeContextHidesChange(ops: seq<Op>, hs: seq<Hunk>)
    requires |ops| <= MAX_OPS && DiffOf(ops, ["x", "y"], ["x", "z"]) && HunksShowing(hs, ops, MAX_INT)
    ensures hs == [] && ApplyPatch(hs, ["x", "y"]) != Some(["x", "z"])
  {
    var a, b: seq<Line> := ["x", "y"], ["x", "z"];
    assert a[1..] == ["y"] && b[1..] == ["z"];
    assert CommonPrefix(a, b) == 1;
    PatchExactlyWhen(ops, a, b, MAX_INT, hs);
  }
}
