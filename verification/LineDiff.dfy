/** The line diff of cmd/lsctl/internal/render/diff.go: from two lists of lines to a
    minimal edit script. */
module LineDiff {
  import opened Basics
  import opened Subsequences

  /** Bounds the table of LcsDiff; larger middles are deleted and added wholesale. */
  const MAX_DIFF_CELLS := 4 * 1024 * 1024

  newtype int32 = x: int | -0x8000_0000 <= x < 0x8000_0000

  type Line = string

  datatype Kind = Same | Removed | Added

  datatype Op = Op(kind: Kind, text: Line)

  // ---------------------------------------------------------------- edit scripts

  /** The lines of the old text that a script reads, in order. */
  function OldSide(ops: seq<Op>): seq<Line> {
    if ops == [] then []
    else (if ops[0].kind == Added then [] else [ops[0].text]) + OldSide(ops[1..])
  }

  /** The lines of the new text that a script writes, in order. */
  function NewSide(ops: seq<Op>): seq<Line> {
    if ops == [] then []
    else (if ops[0].kind == Removed then [] else [ops[0].text]) + NewSide(ops[1..])
  }

  /** The number of lines a script keeps. */
  function Kept(ops: seq<Op>): nat {
    if ops == [] then 0 else (if ops[0].kind == Same then 1 else 0) + Kept(ops[1..])
  }

  ghost predicate IsScript(ops: seq<Op>, a: seq<Line>, b: seq<Line>) {
    OldSide(ops) == a && NewSide(ops) == b
  }

  /** No script from a to b has fewer removals and additions. */
  ghost predicate IsMinimal(ops: seq<Op>, a: seq<Line>, b: seq<Line>) {
    && IsScript(ops, a, b)
    && forall other: seq<Op> :: IsScript(other, a, b) ==> |ops| - Kept(ops) <= |other| - Kept(other)
  }

  /** Inside a block of changes every removal stands before every addition. */
  ghost predicate DeletesFirst(ops: seq<Op>) {
    forall k :: 0 < k < |ops| && ops[k].kind == Removed ==> ops[k - 1].kind != Added
  }

  lemma {:induction false} OldSideAppend(x: seq<Op>, y: seq<Op>)
    ensures OldSide(x + y) == OldSide(x) + OldSide(y)
  {
    if x == [] {
      assert x + y == y;
    } else {
      assert (x + y)[1..] == x[1..] + y;
      OldSideAppend(x[1..], y);
    }
  }

  lemma {:induction false} NewSideAppend(x: seq<Op>, y: seq<Op>)
    ensures NewSide(x + y) == NewSide(x) + NewSide(y)
  {
    if x == [] {
      assert x + y == y;
    } else {
      assert (x + y)[1..] == x[1..] + y;
      NewSideAppend(x[1..], y);
    }
  }

  lemma {:induction false} KeptAppend(x: seq<Op>, y: seq<Op>)
    ensures Kept(x + y) == Kept(x) + Kept(y)
  {
    if x == [] {
      assert x + y == y;
    } else {
      assert (x + y)[1..] == x[1..] + y;
      KeptAppend(x[1..], y);
    }
  }

  lemma SidesAppend(x: seq<Op>, y: seq<Op>)
    ensures OldSide(x + y) == OldSide(x) + OldSide(y)
    ensures NewSide(x + y) == NewSide(x) + NewSide(y)
    ensures Kept(x + y) == Kept(x) + Kept(y)
  {
    hide OldSide, NewSide, Kept;
    OldSideAppend(x, y);
    NewSideAppend(x, y);
    KeptAppend(x, y);
  }

  /** What one operation reads, writes and keeps; with SidesAppend this fixes all three. */
  lemma SidesOfOne(t: Line)
    ensures OldSide([]) == NewSide([]) == [] && Kept([]) == 0
    ensures OldSide([Op(Same, t)]) == NewSide([Op(Same, t)]) == [t] && Kept([Op(Same, t)]) == 1
    ensures OldSide([Op(Removed, t)]) == [t] && NewSide([Op(Removed, t)]) == [] && Kept([Op(Removed, t)]) == 0
    ensures OldSide([Op(Added, t)]) == [] && NewSide([Op(Added, t)]) == [t] && Kept([Op(Added, t)]) == 0
  {
  }

  lemma {:induction false} SidesLength(ops: seq<Op>)
    ensures |OldSide(ops)| + |NewSide(ops)| == |ops| + Kept(ops)
  {
    if ops != [] {
      SidesLength(ops[1..]);
    }
  }

  /** What a script keeps is a common subsequence, so no script keeps more than Lcs. */
  lemma {:induction false} KeptAtMostLcs(ops: seq<Op>)
    ensures Kept(ops) <= Lcs(OldSide(ops), NewSide(ops))
  {
    if ops != [] {
      KeptAtMostLcs(ops[1..]);
      var a, b, x := OldSide(ops[1..]), NewSide(ops[1..]), ops[0].text;
      match ops[0].kind
      case Same => LcsTrimHead(a, b, x);
      case Removed =>
        assert OldSide(ops) == [x] + a && NewSide(ops) == b;
        assert ([x] + a)[1..] == a;
        LcsSymmetric([x] + a, b);
        LcsSymmetric(a, b);
        LcsDropRight(b, [x] + a);
      case Added =>
        assert OldSide(ops) == a && NewSide(ops) == [x] + b;
        assert ([x] + b)[1..] == b;
        LcsDropRight(a, [x] + b);
    }
  }

  lemma LcsSymmetric(a: seq<Line>, b: seq<Line>)
    ensures Lcs(a, b) == Lcs(b, a)
  {
    var s := LcsIsAttained(a, b);
    LcsIsUpperBound(s, b, a);
    var t := LcsIsAttained(b, a);
    LcsIsUpperBound(t, a, b);
  }

  /** A script is minimal exactly when it keeps a longest common subsequence,
      given that some script attains one. */
  lemma KeepingLcsIsMinimal(ops: seq<Op>, a: seq<Line>, b: seq<Line>)
    requires IsScript(ops, a, b) && Kept(ops) == Lcs(a, b)
    ensures IsMinimal(ops, a, b)
  {
    SidesLength(ops);
    forall other: seq<Op> | IsScript(other, a, b)
      ensures |ops| - Kept(ops) <= |other| - Kept(other)
    {
      SidesLength(other);
      KeptAtMostLcs(other);
    }
  }

  // ---------------------------------------------------------------- marking

  function Marked(kind: Kind, lines: seq<Line>): (ops: seq<Op>)
    ensures |ops| == |lines|
    ensures forall i :: 0 <= i < |lines| ==> ops[i] == Op(kind, lines[i])
  {
    seq(|lines|, i requires 0 <= i < |lines| => Op(kind, lines[i]))
  }

  lemma {:induction false} MarkedSides(kind: Kind, lines: seq<Line>)
    ensures OldSide(Marked(kind, lines)) == if kind == Added then [] else lines
    ensures NewSide(Marked(kind, lines)) == if kind == Removed then [] else lines
    ensures Kept(Marked(kind, lines)) == if kind == Same then |lines| else 0
  {
    if lines != [] {
      assert Marked(kind, lines)[1..] == Marked(kind, lines[1..]);
      MarkedSides(kind, lines[1..]);
    }
  }

  method Mark(kind: Kind, lines: seq<Line>) returns (out: seq<Op>)
    ensures out == Marked(kind, lines)
  {
    var arr := new Op[|lines|](_ => Op(kind, ""));
    for i := 0 to |lines|
      invariant forall k :: 0 <= k < i ==> arr[k] == Op(kind, lines[k])
    {
      arr[i] := Op(kind, lines[i]);
    }
    out := arr[..];
  }

  // ---------------------------------------------------------------- the LCS table

  /** Position of cell (i, j) in the flat table of rows of width w. */
  function Cell(i: nat, j: nat, w: nat): nat { i * w + j }

  lemma CellInTable(i: nat, j: nat, n: nat, m: nat)
    requires i <= n && j <= m
    ensures Cell(i, j, m + 1) < (n + 1) * (m + 1)
  {
    assert i * (m + 1) <= n * (m + 1);
  }

  lemma CellsApart(i: nat, j: nat, p: nat, q: nat, w: nat)
    requires j < w && q < w && (i != p || j != q)
    ensures Cell(i, j, w) != Cell(p, q, w)
  {
    if i < p {
      assert (i + 1) * w <= p * w;
    } else if p < i {
      assert (p + 1) * w <= i * w;
    }
  }

  /** Cell (p, q) of the table holds the Lcs of the suffixes from p and q. */
  ghost predicate Holds(tbl: seq<int32>, a: seq<Line>, b: seq<Line>, p: nat, q: nat)
    requires p <= |a| && q <= |b|
  {
    var c := Cell(p, q, |b| + 1);
    c < |tbl| && tbl[c] as int == Lcs(a[p..], b[q..])
  }

  /** All cells after (i, j) in the order in which the loops fill them, and the zero borders. */
  ghost predicate FilledAfter(tbl: seq<int32>, a: seq<Line>, b: seq<Line>, i: int, j: int) {
    forall p: nat, q: nat :: p <= |a| && q <= |b| && (p > i || (p == i && q > j) || q == |b|) ==>
      Holds(tbl, a, b, p, q)
  }

  lemma EmptyTableFilled(tbl: seq<int32>, a: seq<Line>, b: seq<Line>)
    requires |tbl| == (|a| + 1) * (|b| + 1)
    requires forall c :: 0 <= c < |tbl| ==> tbl[c] == 0
    ensures FilledAfter(tbl, a, b, |a| - 1, |b|)
  {
    forall p: nat, q: nat | p <= |a| && q <= |b| && (p > |a| - 1 || q == |b|) ensures Holds(tbl, a, b, p, q) {
      CellInTable(p, q, |a|, |b|);
    }
  }

  lemma FillCell(tbl: seq<int32>, a: seq<Line>, b: seq<Line>, i: nat, j: nat, v: int32)
    requires i < |a| && j < |b|
    requires |tbl| == (|a| + 1) * (|b| + 1)
    requires FilledAfter(tbl, a, b, i, j)
    requires v as int == Lcs(a[i..], b[j..])
    ensures Cell(i, j, |b| + 1) < |tbl|
    ensures FilledAfter(tbl[Cell(i, j, |b| + 1) := v], a, b, i, j - 1)
  {
    CellInTable(i, j, |a|, |b|);
    var upd := tbl[Cell(i, j, |b| + 1) := v];
    forall p: nat, q: nat | p <= |a| && q <= |b| && (p > i || (p == i && q > j - 1) || q == |b|)
      ensures Holds(upd, a, b, p, q)
    {
      if p != i || q != j {
        CellsApart(i, j, p, q, |b| + 1);
        assert Holds(tbl, a, b, p, q);
      }
    }
  }

  /** One step of the recurrence at (i, j), in terms of the three neighbours. */
  lemma LcsStep(a: seq<Line>, b: seq<Line>, i: nat, j: nat)
    requires i < |a| && j < |b|
    ensures Lcs(a[i..], b[j..]) ==
            if a[i] == b[j] then Lcs(a[i + 1..], b[j + 1..]) + 1
            else Max(Lcs(a[i + 1..], b[j..]), Lcs(a[i..], b[j + 1..]))
  {
    assert a[i..][1..] == a[i + 1..] && b[j..][1..] == b[j + 1..];
  }

  /** Under the size guard no table entry exceeds 2048 and no table 2^23 + 2 cells,
      which is why 32-bit entries suffice. */
  lemma TableFitsInt32(a: seq<Line>, b: seq<Line>, i: nat, j: nat)
    requires |a| * |b| <= MAX_DIFF_CELLS
    requires i <= |a| && j <= |b|
    ensures Lcs(a[i..], b[j..]) <= 2048
    ensures |a| >= 1 && |b| >= 1 ==> (|a| + 1) * (|b| + 1) <= 0x80_0002
  {
    hide Lcs;
    LcsBound(a[i..], b[j..]);
    if Lcs(a[i..], b[j..]) > 2048 {
      ProductAtLeast(2049, |a|, |b|);
    }
    if |a| >= 1 && |b| >= 1 {
      CellCount(|a|, |b|);
    }
  }

  lemma ProductAtLeast(k: nat, n: nat, m: nat)
    requires k <= n && k <= m
    ensures k * k <= n * m
  {
    assert k * k <= k * m;
    assert k * m <= n * m;
  }

  lemma CellCount(n: nat, m: nat)
    requires n >= 1 && m >= 1
    ensures (n + 1) * (m + 1) <= 2 * (n * m) + 2
  {
    assert (n + 1) * (m + 1) == n * m + n + m + 1;
    assert (n - 1) * (m - 1) == n * m - n - m + 1;
    assert (n - 1) * (m - 1) >= 0;
  }

  /** The table is filled from the bottom right; then a walk from the top left emits
      the script, preferring a removal when both neighbours are equally good. */
  method LcsDiff(a: seq<Line>, b: seq<Line>) returns (out: seq<Op>)
    requires |a| * |b| <= MAX_DIFF_CELLS
    ensures IsScript(out, a, b)
    ensures Kept(out) == Lcs(a, b)
    ensures DeletesFirst(out)
    ensures a != [] && b != [] && a[0] != b[0] ==> out != [] && out[0].kind != Same
  {
    var n, m := |a|, |b|;
    assert (n + 1) * (m + 1) >= 0;
    var tbl := new int32[(n + 1) * (m + 1)](_ => 0);
    EmptyTableFilled(tbl[..], a, b);

    var i := n - 1;
    while i >= 0
      invariant -1 <= i <= n - 1
      invariant FilledAfter(tbl[..], a, b, i, m)
    {
      var j := m - 1;
      assert FilledAfter(tbl[..], a, b, i, j);
      while j >= 0
        invariant -1 <= j <= m - 1
        invariant FilledAfter(tbl[..], a, b, i, j)
      {
        assert Holds(tbl[..], a, b, i + 1, j + 1) && Holds(tbl[..], a, b, i + 1, j) && Holds(tbl[..], a, b, i, j + 1);
        LcsStep(a, b, i, j);
        TableFitsInt32(a, b, i, j);
        var v: int32;
        if a[i] == b[j] {
          v := tbl[Cell(i + 1, j + 1, m + 1)] + 1;
        } else if tbl[Cell(i + 1, j, m + 1)] >= tbl[Cell(i, j + 1, m + 1)] {
          v := tbl[Cell(i + 1, j, m + 1)];
        } else {
          v := tbl[Cell(i, j + 1, m + 1)];
        }
        FillCell(tbl[..], a, b, i, j, v);
        ghost var was := tbl[..];
        tbl[Cell(i, j, m + 1)] := v;
        assert tbl[..] == was[Cell(i, j, m + 1) := v];
        j := j - 1;
      }
      assert FilledAfter(tbl[..], a, b, i - 1, m);
      i := i - 1;
    }
    out := Backtrace(a, b, tbl);
  }

  ghost predicate EndsInAddition(ops: seq<Op>) {
    ops != [] && ops[|ops| - 1].kind == Added
  }

  /** The walk has reached (i, j) without losing a line that could be kept. */
  ghost predicate Walked(out: seq<Op>, a: seq<Line>, b: seq<Line>, i: nat, j: nat) {
    && i <= |a| && j <= |b|
    && OldSide(out) == a[..i] && NewSide(out) == b[..j]
    && Kept(out) + Lcs(a[i..], b[j..]) == Lcs(a, b)
    && DeletesFirst(out)
    && (EndsInAddition(out) ==> i < |a| && Lcs(a[i + 1..], b[j..]) < Lcs(a[i..], b[j..]))
  }

  /** One step of the walk. After an addition the table has ruled out a removal until
      the next kept line. */
  lemma WalkOn(out: seq<Op>, a: seq<Line>, b: seq<Line>, i: nat, j: nat, step: Op)
    requires Walked(out, a, b, i, j) && i < |a| && j < |b|
    requires
      var down, right := Lcs(a[i + 1..], b[j..]), Lcs(a[i..], b[j + 1..]);
      step == if a[i] == b[j] then Op(Same, a[i]) else if down >= right then Op(Removed, a[i]) else Op(Added, b[j])
    ensures Walked(out + [step], a, b, if step.kind == Added then i else i + 1, if step.kind == Removed then j else j + 1)
  {
    LcsStep(a, b, i, j);
    LcsDropRight(a[i + 1..], b[j..]);
    assert b[j..][1..] == b[j + 1..];
    SidesAppend(out, [step]);
    assert OldSide([step]) == if step.kind == Added then [] else [step.text];
    assert NewSide([step]) == if step.kind == Removed then [] else [step.text];
    assert a[..i + 1] == a[..i] + [a[i]] && b[..j + 1] == b[..j] + [b[j]];
  }

  /** A kept line if the two sides agree; otherwise a removal when both neighbours in
      the table are equally good, so that removals come first. */
  method NextStep(a: seq<Line>, b: seq<Line>, tbl: array<int32>, i: nat, j: nat) returns (step: Op)
    requires i < |a| && j < |b|
    requires FilledAfter(tbl[..], a, b, -1, |b|)
    ensures
      var down, right := Lcs(a[i + 1..], b[j..]), Lcs(a[i..], b[j + 1..]);
      step == if a[i] == b[j] then Op(Same, a[i]) else if down >= right then Op(Removed, a[i]) else Op(Added, b[j])
  {
    assert Holds(tbl[..], a, b, i + 1, j) && Holds(tbl[..], a, b, i, j + 1);
    var w := |b| + 1;
    if a[i] == b[j] {
      step := Op(Same, a[i]);
    } else if tbl[Cell(i + 1, j, w)] >= tbl[Cell(i, j + 1, w)] {
      step := Op(Removed, a[i]);
    } else {
      step := Op(Added, b[j]);
    }
  }

  /** The walk of LcsDiff over a filled table. */
  method Backtrace(a: seq<Line>, b: seq<Line>, tbl: array<int32>) returns (out: seq<Op>)
    requires FilledAfter(tbl[..], a, b, -1, |b|)
    ensures IsScript(out, a, b)
    ensures Kept(out) == Lcs(a, b)
    ensures DeletesFirst(out)
    ensures a != [] && b != [] && a[0] != b[0] ==> out != [] && out[0].kind != Same
  {
    var n, m := |a|, |b|;
    out := [];
    var i, j := 0, 0;
    assert a[0..] == a && b[0..] == b;
    while i < n && j < m
      invariant 0 <= i <= n && 0 <= j <= m
      invariant Walked(out, a, b, i, j)
      invariant out == [] ==> i == 0 && j == 0
      invariant out != [] && a != [] && b != [] && a[0] != b[0] ==> out[0].kind != Same
      decreases n - i + m - j
    {
      var step := NextStep(a, b, tbl, i, j);
      WalkOn(out, a, b, i, j, step);
      out := out + [step];
      i, j := if step.kind == Added then i else i + 1, if step.kind == Removed then j else j + 1;
    }
    var removed := Mark(Removed, a[i..]);
    var added := Mark(Added, b[j..]);
    AppendTail(out, removed, added, a, b, i, j);
    out := out + removed + added;
  }

  lemma AppendTail(out: seq<Op>, removed: seq<Op>, added: seq<Op>, a: seq<Line>, b: seq<Line>, i: nat, j: nat)
    requires Walked(out, a, b, i, j) && (i == |a| || j == |b|)
    requires removed == Marked(Removed, a[i..]) && added == Marked(Added, b[j..])
    ensures IsScript(out + removed + added, a, b)
    ensures Kept(out + removed + added) == Lcs(a, b)
    ensures DeletesFirst(out + removed + added)
  {
    assert Lcs(a[i..], b[j..]) == 0 && !EndsInAddition(out);
    TailInOrder(out, removed, added);
    hide Lcs, OldSide, NewSide, Kept, DeletesFirst, EndsInAddition, Marked;
    MarkedSides(Removed, a[i..]);
    MarkedSides(Added, b[j..]);
    TailSides(out, removed, added);
    assert a[..i] + a[i..] == a && b[..j] + b[j..] == b;
  }

  lemma TailSides(out: seq<Op>, removed: seq<Op>, added: seq<Op>)
    requires NewSide(removed) == [] && OldSide(added) == [] && Kept(removed) == Kept(added) == 0
    ensures OldSide(out + removed + added) == OldSide(out) + OldSide(removed)
    ensures NewSide(out + removed + added) == NewSide(out) + NewSide(added)
    ensures Kept(out + removed + added) == Kept(out)
  {
    hide OldSide, NewSide, Kept;
    SidesAppend(out, removed);
    SidesAppend(out + removed, added);
  }

  lemma TailInOrder(out: seq<Op>, removed: seq<Op>, added: seq<Op>)
    requires DeletesFirst(out) && !EndsInAddition(out)
    requires (forall r :: r in removed ==> r.kind == Removed) && (forall r :: r in added ==> r.kind == Added)
    ensures DeletesFirst(out + removed + added)
  {
    var all := out + removed + added;
    assert forall k :: |out| <= k < |out| + |removed| ==> all[k] in removed;
    assert forall k :: |out| + |removed| <= k < |all| ==> all[k] in added;
  }

  // ---------------------------------------------------------------- trimming

  /** The number of leading lines two texts share. */
  function CommonPrefix(a: seq<Line>, b: seq<Line>): (n: nat)
    ensures n <= |a| && n <= |b|
  {
    if a != [] && b != [] && a[0] == b[0] then 1 + CommonPrefix(a[1..], b[1..]) else 0
  }

  /** The number of trailing lines two texts share. */
  function CommonSuffix(a: seq<Line>, b: seq<Line>): (n: nat)
    ensures n <= |a| && n <= |b|
  {
    if a != [] && b != [] && a[|a| - 1] == b[|b| - 1] then 1 + CommonSuffix(a[..|a| - 1], b[..|b| - 1]) else 0
  }

  /** What remains of the two texts between their shared head and shared tail. */
  function Middle(a: seq<Line>, b: seq<Line>): (seq<Line>, seq<Line>) {
    var h := CommonPrefix(a, b);
    var x, y := a[h..], b[h..];
    var t := CommonSuffix(x, y);
    (x[..|x| - t], y[..|y| - t])
  }

  /** The middle is too large for the table, so it is replaced wholesale. */
  predicate Oversized(a: seq<Line>, b: seq<Line>) {
    |Middle(a, b).0| * |Middle(a, b).1| > MAX_DIFF_CELLS
  }

  lemma {:induction false} CommonPrefixShift(a: seq<Line>, b: seq<Line>, k: nat)
    requires k <= |a| && k <= |b| && a[..k] == b[..k]
    ensures CommonPrefix(a, b) == k + CommonPrefix(a[k..], b[k..])
  {
    if k == 0 {
      assert a[0..] == a && b[0..] == b;
    } else {
      assert a[0] == a[..k][0] == b[..k][0] == b[0];
      assert a[1..][..k - 1] == a[..k][1..] == b[..k][1..] == b[1..][..k - 1];
      CommonPrefixShift(a[1..], b[1..], k - 1);
      assert a[1..][k - 1..] == a[k..] && b[1..][k - 1..] == b[k..];
    }
  }

  lemma {:induction false} CommonPrefixAgrees(a: seq<Line>, b: seq<Line>)
    ensures a[..CommonPrefix(a, b)] == b[..CommonPrefix(a, b)]
  {
    if a != [] && b != [] && a[0] == b[0] {
      CommonPrefixAgrees(a[1..], b[1..]);
      var n := CommonPrefix(a[1..], b[1..]);
      assert a[..n + 1] == [a[0]] + a[1..][..n];
      assert b[..n + 1] == [b[0]] + b[1..][..n];
    }
  }

  function Reversed<T>(s: seq<T>): (r: seq<T>)
    ensures |r| == |s|
    ensures forall i :: 0 <= i < |s| ==> r[i] == s[|s| - 1 - i]
  {
    seq(|s|, i requires 0 <= i < |s| => s[|s| - 1 - i])
  }

  /** The index of the first removal or addition; the length of the script if there is none. */
  function FirstChange(ops: seq<Op>): (k: nat)
    ensures k <= |ops|
    ensures forall i :: 0 <= i < k ==> ops[i].kind == Same
    ensures k < |ops| ==> ops[k].kind != Same
  {
    if ops == [] || ops[0].kind != Same then 0 else 1 + FirstChange(ops[1..])
  }

  lemma {:induction false} FirstChangePast(lines: seq<Line>, rest: seq<Op>)
    ensures FirstChange(Marked(Same, lines) + rest) == |lines| + FirstChange(rest)
  {
    if lines == [] {
      assert Marked(Same, lines) + rest == rest;
    } else {
      FirstChangePast(lines[1..], rest);
      assert (Marked(Same, lines) + rest)[1..] == Marked(Same, lines[1..]) + rest;
    }
  }

  lemma SidesOfThree(x: seq<Op>, y: seq<Op>, z: seq<Op>)
    ensures OldSide(x + y + z) == OldSide(x) + OldSide(y) + OldSide(z)
    ensures NewSide(x + y + z) == NewSide(x) + NewSide(y) + NewSide(z)
    ensures Kept(x + y + z) == Kept(x) + Kept(y) + Kept(z)
  {
    hide OldSide, NewSide, Kept;
    SidesAppend(x, y);
    SidesAppend(x + y, z);
  }

  lemma KeepsDeletesFirst(h: seq<Line>, mid: seq<Op>, t: seq<Line>)
    requires DeletesFirst(mid)
    ensures DeletesFirst(Marked(Same, h) + mid + Marked(Same, t))
  {
    hide Marked;
    var head, tail := Marked(Same, h), Marked(Same, t);
    var out := head + mid + tail;
    assert forall k :: 0 <= k < |head| ==> out[k] in head;
    assert forall k :: |head| + |mid| <= k < |out| ==> out[k] in tail;
    forall k | 0 < k < |out| && out[k].kind == Removed ensures out[k - 1].kind != Added {
      assert |head| <= k < |head| + |mid| && out[k] == mid[k - |head|];
      assert k > |head| ==> out[k - 1] == mid[k - 1 - |head|];
    }
  }

  /** A shared head and a shared tail around the script of the middle. */
  lemma Assemble(h: seq<Line>, x: seq<Line>, y: seq<Line>, mid: seq<Op>, t: seq<Line>)
    requires IsScript(mid, x, y) && DeletesFirst(mid)
    ensures
      var out := Marked(Same, h) + mid + Marked(Same, t);
      && IsScript(out, h + x + t, h + y + t)
      && DeletesFirst(out)
      && Kept(out) == |h| + Kept(mid) + |t|
      && (mid != [] && mid[0].kind != Same ==> FirstChange(out) == |h| < |out|)
  {
    KeepsDeletesFirst(h, mid, t);
    hide OldSide, NewSide, Kept, DeletesFirst, Marked;
    var head, tail := Marked(Same, h), Marked(Same, t);
    MarkedSides(Same, h);
    MarkedSides(Same, t);
    SidesOfThree(head, mid, tail);
    FirstChangePast(h, mid + tail);
    assert head + mid + tail == head + (mid + tail);
  }

  lemma {:induction false} LcsOfTrimmed(a: seq<Line>, b: seq<Line>, h: nat)
    requires h <= |a| && h <= |b| && a[..h] == b[..h]
    ensures Lcs(a, b) == h + Lcs(a[h..], b[h..])
  {
    if h == 0 {
      assert a[0..] == a && b[0..] == b;
    } else {
      assert a[0] == a[..h][0] == b[..h][0] == b[0];
      assert a[1..][..h - 1] == a[..h][1..] == b[..h][1..] == b[1..][..h - 1];
      LcsOfTrimmed(a[1..], b[1..], h - 1);
      assert a[1..][h - 1..] == a[h..] && b[1..][h - 1..] == b[h..];
    }
  }

  /** (x, y, t) is (a, b) without its shared head and with its shared tail t split off. */
  ghost predicate Trimmed(a: seq<Line>, b: seq<Line>, x: seq<Line>, y: seq<Line>, t: seq<Line>) {
    var h := CommonPrefix(a, b);
    && a[h..] == x + t && b[h..] == y + t
    && CommonSuffix(a[h..], b[h..]) == |t| + CommonSuffix(x, y)
    && Lcs(a, b) == h + Lcs(x, y) + |t|
    && (x != [] && y != [] ==> x[0] != y[0])
    && (x == [] && y == [] ==> a == b)
  }

  lemma TrimHead(a: seq<Line>, b: seq<Line>, h: nat)
    requires h <= |a| && h <= |b| && a[..h] == b[..h]
    requires h < |a| && h < |b| ==> a[h] != b[h]
    ensures h == CommonPrefix(a, b)
    ensures Trimmed(a, b, a[h..], b[h..], [])
  {
    CommonPrefixShift(a, b, h);
    LcsOfTrimmed(a, b, h);
    assert a == a[..h] + a[h..] && b == b[..h] + b[h..];
    assert a[h..] + [] == a[h..] && b[h..] + [] == b[h..];
  }

  lemma TrimTail(a: seq<Line>, b: seq<Line>, x: seq<Line>, y: seq<Line>, t: seq<Line>)
    requires Trimmed(a, b, x, y, t)
    requires x != [] && y != [] && x[|x| - 1] == y[|y| - 1]
    ensures Trimmed(a, b, x[..|x| - 1], y[..|y| - 1], [x[|x| - 1]] + t)
  {
    var last := x[|x| - 1];
    var x', y', t' := x[..|x| - 1], y[..|y| - 1], [last] + t;
    assert x == x' + [last] && y == y' + [last];
    assert x' + t' == x + t && y' + t' == y + t;
    LcsTrimTail(x', y', last);
  }

  lemma TrimmedMiddle(a: seq<Line>, b: seq<Line>, x: seq<Line>, y: seq<Line>, t: seq<Line>)
    requires Trimmed(a, b, x, y, t) && CommonSuffix(x, y) == 0
    ensures (x, y) == Middle(a, b)
  {
    var h := CommonPrefix(a, b);
    assert a[h..][..|x|] == x && b[h..][..|y|] == y;
  }

  lemma TrimmedTexts(a: seq<Line>, b: seq<Line>, x: seq<Line>, y: seq<Line>, t: seq<Line>) returns (head: seq<Line>)
    requires Trimmed(a, b, x, y, t)
    ensures head == a[..CommonPrefix(a, b)]
    ensures head + x + t == a && head + y + t == b
  {
    CommonPrefixAgrees(a, b);
    hide CommonPrefix, CommonSuffix, Lcs;
    var h := CommonPrefix(a, b);
    head := a[..h];
    assert head + x + t == head + (x + t) && head + y + t == head + (y + t);
    assert a == a[..h] + a[h..] && b == b[..h] + b[h..];
  }

  /** How many lines a diff keeps: a longest common subsequence, or only the shared
      head and tail if the middle was too large for the table. */
  ghost function KeptByDiff(a: seq<Line>, b: seq<Line>): int {
    if Oversized(a, b) then |a| - |Middle(a, b).0| else Lcs(a, b)
  }

  lemma TrimmedKept(a: seq<Line>, b: seq<Line>, x: seq<Line>, y: seq<Line>, t: seq<Line>)
    requires Trimmed(a, b, x, y, t) && CommonSuffix(x, y) == 0
    ensures CommonPrefix(a, b) + (if |x| * |y| <= MAX_DIFF_CELLS then Lcs(x, y) else 0) + |t| == KeptByDiff(a, b)
  {
    TrimmedMiddle(a, b, x, y, t);
    assert |a| == CommonPrefix(a, b) + |x + t|;
  }

  lemma TrimDone(a: seq<Line>, b: seq<Line>, x: seq<Line>, y: seq<Line>, t: seq<Line>, mid: seq<Op>)
    requires Trimmed(a, b, x, y, t) && CommonSuffix(x, y) == 0
    requires IsScript(mid, x, y) && DeletesFirst(mid)
    requires x != [] || y != [] ==> mid != [] && mid[0].kind != Same
    requires Kept(mid) == if |x| * |y| <= MAX_DIFF_CELLS then Lcs(x, y) else 0
    ensures DiffOf(Marked(Same, a[..CommonPrefix(a, b)]) + mid + Marked(Same, t), a, b)
  {
    TrimmedKept(a, b, x, y, t);
    if a == b {
      EqualTextsTrimAway(a, x, y, t, mid);
    }
    var head := TrimmedTexts(a, b, x, y, t);
    assert a != b ==> x != [] || y != [];
    WrapUp(a, b, head, x, y, mid, t);
  }

  lemma WrapUp(a: seq<Line>, b: seq<Line>, head: seq<Line>, x: seq<Line>, y: seq<Line>, mid: seq<Op>, t: seq<Line>)
    requires IsScript(mid, x, y) && DeletesFirst(mid)
    requires head + x + t == a && head + y + t == b && |head| == CommonPrefix(a, b)
    requires |head| + Kept(mid) + |t| == KeptByDiff(a, b)
    requires a != b ==> mid != [] && mid[0].kind != Same
    requires a == b ==> Marked(Same, head) + mid + Marked(Same, t) == Marked(Same, a)
    ensures DiffOf(Marked(Same, head) + mid + Marked(Same, t), a, b)
  {
    Assemble(head, x, y, mid, t);
  }

  lemma EqualTextsTrimAway(a: seq<Line>, x: seq<Line>, y: seq<Line>, t: seq<Line>, mid: seq<Op>)
    requires Trimmed(a, a, x, y, t) && IsScript(mid, x, y)
    ensures x == y == t == [] && mid == []
    ensures Marked(Same, a[..CommonPrefix(a, a)]) + mid + Marked(Same, t) == Marked(Same, a)
  {
    CommonPrefixShift(a, a, |a|);
    assert a[|a|..] == [];
    SidesLength(mid);
    assert a[..|a|] == a;
  }

  /** What the diff of a and b is: a script with deletions first, minimal unless the
      middle was too large, whose first change comes right after the shared head. */
  ghost predicate DiffOf(ops: seq<Op>, a: seq<Line>, b: seq<Line>) {
    && IsScript(ops, a, b)
    && DeletesFirst(ops)
    && Kept(ops) == KeptByDiff(a, b)
    && (a == b ==> ops == Marked(Same, a))
    && (a != b ==> FirstChange(ops) == CommonPrefix(a, b) < |ops|)
  }

  lemma SmallMiddle(a: seq<Line>, b: seq<Line>)
    ensures |Middle(a, b).0| * |Middle(a, b).1| <= 4194304 ==> !Oversized(a, b)
    ensures |Middle(a, b).0| * |Middle(a, b).1| <= 0x7FFF_FFFF_FFFF_FFFF ==>
              !GuardFooled(|Middle(a, b).0|, |Middle(a, b).1|)
  {
    WrapsNegative(|Middle(a, b).0| * |Middle(a, b).1|);
  }

  /** None stands for the run-time failure of a fooled size guard. */
  method DiffLines(a: seq<Line>, b: seq<Line>) returns (ops: Option<seq<Op>>)
    ensures ops.None? <==> GuardFooled(|Middle(a, b).0|, |Middle(a, b).1|)
    ensures ops.Some? ==> DiffOf(ops.value, a, b)
    ensures |Middle(a, b).0| * |Middle(a, b).1| <= 4194304 ==>
              ops.Some? && IsMinimal(ops.value, a, b) && IsLcsLength(Kept(ops.value), a, b)
    ensures |Middle(a, b).0| * |Middle(a, b).1| <= 0x7FFF_FFFF_FFFF_FFFF ==> ops.Some?
  {
    SmallMiddle(a, b);
    hide GuardFooled, Oversized, WrapInt;
    var x, y := a, b;
    var head: seq<Op> := [];
    while |x| > 0 && |y| > 0 && x[0] == y[0]
      invariant |head| <= |a| && |head| <= |b|
      invariant x == a[|head|..] && y == b[|head|..]
      invariant a[..|head|] == b[..|head|]
      invariant head == Marked(Same, a[..|head|])
      decreases |x|
    {
      assert a[..|head| + 1] == a[..|head|] + [x[0]] && b[..|head| + 1] == b[..|head|] + [x[0]];
      CollectHead(head, a[..|head|], x[0]);
      head := head + [Op(Same, x[0])];
      x, y := x[1..], y[1..];
    }
    TrimHead(a, b, |head|);

    var tail: seq<Op> := [];
    ghost var t: seq<Line> := [];
    while |x| > 0 && |y| > 0 && x[|x| - 1] == y[|y| - 1]
      invariant Trimmed(a, b, x, y, t)
      invariant Reversed(tail) == Marked(Same, t)
      decreases |x|
    {
      hide Trimmed, Reversed;
      TrimTail(a, b, x, y, t);
      CollectTail(tail, t, x[|x| - 1]);
      t := [x[|x| - 1]] + t;
      tail := tail + [Op(Same, x[|x| - 1])];
      x, y := x[..|x| - 1], y[..|y| - 1];
    }
    tail := Reversed(tail);
    assert CommonSuffix(x, y) == 0;

    var middle := DiffMiddle(x, y) by {
      assert Trimmed(a, b, x, y, t);
    }
    TrimmedMiddle(a, b, x, y, t);
    if middle.None? {
      return None;
    }
    var mid := middle.value;
    hide Trimmed, DiffOf, IsScript, Lcs, DeletesFirst, Kept, CommonPrefix, CommonSuffix;
    TrimDone(a, b, x, y, t, mid);
    var out := head + mid + tail;
    ops := Some(out);
    if !Oversized(a, b) {
      MinimalIfSmall(out, a, b);
    }
  }

  lemma CollectHead(head: seq<Op>, lines: seq<Line>, next: Line)
    requires head == Marked(Same, lines)
    ensures head + [Op(Same, next)] == Marked(Same, lines + [next])
  {
    hide Marked;
    var more := Marked(Same, lines + [next]);
    assert forall i :: 0 <= i < |lines| ==> more[i] == Op(Same, (lines + [next])[i]) == head[i];
  }

  /** The tail is collected back to front. */
  lemma CollectTail(tail: seq<Op>, t: seq<Line>, last: Line)
    requires Reversed(tail) == Marked(Same, t)
    ensures Reversed(tail + [Op(Same, last)]) == Marked(Same, [last] + t)
  {
    assert Reversed(tail + [Op(Same, last)]) == [Op(Same, last)] + Reversed(tail);
  }

  lemma MinimalIfSmall(ops: seq<Op>, a: seq<Line>, b: seq<Line>)
    requires DiffOf(ops, a, b) && !Oversized(a, b)
    ensures IsMinimal(ops, a, b) && IsLcsLength(Kept(ops), a, b)
  {
    LcsIsLongest(a, b);
    KeepingLcsIsMinimal(ops, a, b);
  }

  /** The size guard multiplies Go ints, so a product that wraps round can pass it although
      the two middles are far too large for a table. */
  predicate GuardFooled(n: nat, m: nat) {
    n * m > MAX_DIFF_CELLS && WrapInt(n * m) <= MAX_DIFF_CELLS
  }

  /** The flat index of a cell that the table loop fills, computed in Go's int, is negative. */
  predicate IndexFails(i: nat, j: nat, n: nat, m: nat) {
    i < n && j < m && WrapInt(Cell(i, j, m + 1)) < 0
  }

  lemma SmallerFactor(a: nat, b: nat, w: nat)
    requires a * w < b * w
    ensures a < b
  {
  }

  lemma WrapsNegative(x: int)
    ensures MAX_INT < x <= MAX_INT + 2 ==> WrapInt(x) < 0
    ensures 0 <= x <= MAX_INT ==> WrapInt(x) == x
  {
  }

  /** LcsDiff cannot survive a fooled guard: one of the cells it has to fill has a negative index. */
  lemma FooledGuardFails(n: nat, m: nat)
    requires GuardFooled(n, m) && n <= MAX_OPS && m <= MAX_OPS
    ensures exists i: nat, j: nat :: IndexFails(i, j, n, m)
  {
    WrapsNegative(n * m);
    WrapsNegative(MAX_INT + 1);
    WrapsNegative(MAX_INT + 2);
    hide WrapInt;
    var w := m + 1;
    var i, j := (MAX_INT + 1) / w, (MAX_INT + 1) % w;
    assert i * w + j == MAX_INT + 1;
    assert n <= 1 ==> n * m <= m;
    assert n * w == n * m + n >= MAX_INT + 3;
    if j < m {
      SmallerFactor(i, n, w);
      assert IndexFails(i, j, n, m);
    } else {
      assert (i + 1) * w == i * w + w == MAX_INT + 2;
      SmallerFactor(i + 1, n, w);
      assert IndexFails(i + 1, 0, n, m);
    }
  }

  /** Deleting one list of lines and adding another. */
  lemma ReplacedScript(x: seq<Line>, y: seq<Line>)
    ensures var ops := Marked(Removed, x) + Marked(Added, y);
            && IsScript(ops, x, y) && DeletesFirst(ops) && Kept(ops) == 0
            && (x != [] || y != [] ==> ops != [] && ops[0].kind != Same)
  {
    MarkedSides(Removed, x);
    MarkedSides(Added, y);
    hide OldSide, NewSide, Kept;
    SidesAppend(Marked(Removed, x), Marked(Added, y));
  }

  /** The five cases of the middle. None stands for a run-time failure: the size guard let
      a wrapped product pass. */
  method DiffMiddle(x: seq<Line>, y: seq<Line>) returns (middle: Option<seq<Op>>)
    requires x != [] && y != [] ==> x[0] != y[0]
    ensures middle.None? <==> GuardFooled(|x|, |y|)
    ensures middle.Some? ==>
              var mid := middle.value;
              && IsScript(mid, x, y) && DeletesFirst(mid)
              && (x != [] || y != [] ==> mid != [] && mid[0].kind != Same)
              && Kept(mid) == if |x| * |y| <= MAX_DIFF_CELLS then Lcs(x, y) else 0
  {
    var mid: seq<Op>;
    WrapsNegative(|x| * |y|);
    ReplacedScript(x, y);
    assert x == [] || y == [] ==> Lcs(x, y) == |x| * |y| == 0;
    hide WrapInt, Lcs, OldSide, NewSide, Kept, DeletesFirst;
    if |x| == 0 && |y| == 0 {
      mid := [];
      assert mid == Marked(Removed, x) + Marked(Added, y);
    } else if |x| == 0 {
      mid := Mark(Added, y);
      assert mid == Marked(Removed, x) + Marked(Added, y);
    } else if |y| == 0 {
      mid := Mark(Removed, x);
      assert mid == Marked(Removed, x) + Marked(Added, y);
    } else if WrapInt(|x| * |y|) > MAX_DIFF_CELLS {
      var removed := Mark(Removed, x);
      var added := Mark(Added, y);
      mid := removed + added;
    } else {
      if |x| * |y| > MAX_DIFF_CELLS {
        return None;
      }
      mid := LcsDiff(x, y);
    }
    middle := Some(mid);
  }

  // ---------------------------------------------------------------- exactly when the diff is minimal

  lemma {:induction false} BestScript(a: seq<Line>, b: seq<Line>) returns (ops: seq<Op>)
    ensures IsScript(ops, a, b) && Kept(ops) == Lcs(a, b)
    decreases |a| + |b|
  {
    MarkedSides(Removed, a);
    MarkedSides(Added, b);
    if a == [] {
      ops := Marked(Added, b);
    } else if b == [] {
      ops := Marked(Removed, a);
    } else if a[0] == b[0] {
      var rest := BestScript(a[1..], b[1..]);
      ops := [Op(Same, a[0])] + rest;
    } else if Lcs(a[1..], b) >= Lcs(a, b[1..]) {
      var rest := BestScript(a[1..], b);
      ops := [Op(Removed, a[0])] + rest;
    } else {
      var rest := BestScript(a, b[1..]);
      ops := [Op(Added, b[0])] + rest;
    }
  }

  lemma {:induction false} LcsZero(a: seq<Line>, b: seq<Line>)
    ensures Lcs(a, b) == 0 <==> forall x: Line :: x in a ==> x !in b
    decreases |a| + |b|
  {
    if a != [] && b != [] {
      if a[0] == b[0] {
        assert a[0] in a && a[0] in b;
      } else {
        LcsZero(a[1..], b);
        LcsZero(a, b[1..]);
        assert forall x: Line :: x in a <==> x == a[0] || x in a[1..];
        assert forall x: Line :: x in b <==> x == b[0] || x in b[1..];
      }
    }
  }

  lemma {:induction false} LcsAroundMiddle(a: seq<Line>, b: seq<Line>)
    ensures var (x, y) := Middle(a, b); Lcs(a, b) == |a| - |x| + Lcs(x, y)
  {
    CommonPrefixAgrees(a, b);
    var h := CommonPrefix(a, b);
    LcsOfTrimmed(a, b, h);
    LcsWithoutSuffix(a[h..], b[h..]);
  }

  lemma {:induction false} LcsWithoutSuffix(a: seq<Line>, b: seq<Line>)
    ensures var t := CommonSuffix(a, b); Lcs(a, b) == t + Lcs(a[..|a| - t], b[..|b| - t])
  {
    hide Lcs;
    if a != [] && b != [] && a[|a| - 1] == b[|b| - 1] {
      var a', b' := a[..|a| - 1], b[..|b| - 1];
      LcsWithoutSuffix(a', b');
      LcsTrimTail(a', b', a[|a| - 1]);
      assert a == a' + [a[|a| - 1]] && b == b' + [a[|a| - 1]];
      var t := CommonSuffix(a', b');
      assert a'[..|a'| - t] == a[..|a| - 1 - t] && b'[..|b'| - t] == b[..|b| - 1 - t];
    } else {
      assert a[..|a|] == a && b[..|b|] == b;
    }
  }

  /** The delete-and-add fallback gives up minimality exactly when the two middles
      still share a line. */
  lemma MinimalExactlyWhen(ops: seq<Op>, a: seq<Line>, b: seq<Line>)
    requires DiffOf(ops, a, b)
    ensures IsMinimal(ops, a, b) <==>
            (Oversized(a, b) ==> forall x: Line :: x in Middle(a, b).0 ==> x !in Middle(a, b).1)
  {
    var (x, y) := Middle(a, b);
    LcsAroundMiddle(a, b);
    LcsZero(x, y);
    SidesLength(ops);
    KeptAtMostLcs(ops);
    if Kept(ops) == Lcs(a, b) {
      KeepingLcsIsMinimal(ops, a, b);
    } else {
      var best := BestScript(a, b);
      SidesLength(best);
    }
  }
}
