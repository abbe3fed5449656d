/** The link between the two protocols: whatever transactions do, other connections see the
    contents move from one revision to the next as the watermark protocol assumes. */
module CommittedLog {
  import opened Basics
  import opened Schema
  import T = Transactions
  import W = Watermark

  /** What a snapshot query can see of the config table. */
  function Seen(config: map<string, Row>): W.Contents {
    map k | k in config :: W.Item(config[k].value, config[k].format)
  }

  /** The contents at every revision of a serial run. */
  ghost function Revisions(x: Syntax, rs: seq<Request>): (log: seq<W.Contents>)
    ensures |log| == |rs| + 1
  {
    if rs == [] then [Seen(MIGRATED.config)]
    else Revisions(x, rs[..|rs| - 1]) + [Seen(ExecAll(x, MIGRATED, rs).config)]
  }

  /** The write steps that a run of transactions amounts to: one for each commit. */
  ghost function Writes(x: Syntax, d: T.Dialect, acts: seq<T.Action>): seq<W.Action> {
    if acts == [] then []
    else
      var init, a := acts[..|acts| - 1], acts[|acts| - 1];
      var before := T.Run(x, T.Start(d), init);
      Writes(x, d, init) +
      if a.Commit? && T.Enabled(before, a) then [W.Write(Seen(T.Step(x, before, a).committed.config))] else []
  }

  lemma CommitExtends(x: Syntax, s: T.State, a: T.Action)
    requires T.Safe(x, s) && T.Enabled(s, a)
    ensures var s' := T.Step(x, s, a);
            Revisions(x, T.Requests(s'.log)) ==
            Revisions(x, T.Requests(s.log)) + if a.Commit? then [Seen(s'.committed.config)] else []
  {
    var s' := T.Step(x, s, a);
    T.StepKeepsSafe(x, s, a);
    if a.Commit? {
      var rs, rs' := T.Requests(s.log), T.Requests(s'.log);
      assert rs'[..|rs'| - 1] == rs;
    } else {
      T.HistoryOnlyGrows(x, s, a);
      assert s'.log == s.log by { T.LockKept(x, s, a); }
    }
  }

  /** Every interleaving of transactions is a run of writes of the watermark protocol whose
      log holds the contents of every revision; the last of them is what is committed, at
      the revision in the meta row. */
  lemma {:induction false} TransactionsAreWrites(x: Syntax, d: T.Dialect, acts: seq<T.Action>)
    ensures var s := T.Run(x, T.Start(d), acts);
            var w := W.Run(W.Start(map[]), Writes(x, d, acts));
            && w.log == Revisions(x, T.Requests(s.log))
            && s.committed.meta == Some(W.Rev(w))
            && w.log[W.Rev(w)] == Seen(s.committed.config)
  {
    var s := T.Run(x, T.Start(d), acts);
    T.RunsAreSafe(x, d, acts);
    T.EveryInterleaving(x, d, acts);
    LastRevision(x, T.Requests(s.log));
    if acts == [] {
      assert Seen(MIGRATED.config) == map[];
    } else {
      var init, a := acts[..|acts| - 1], acts[|acts| - 1];
      TransactionsAreWrites(x, d, init);
      var before := T.Run(x, T.Start(d), init);
      T.RunsAreSafe(x, d, init);
      if T.Enabled(before, a) {
        CommitExtends(x, before, a);
        if a.Commit? {
          W.RunStep(W.Start(map[]), Writes(x, d, init), W.Write(Seen(s.committed.config)));
        } else {
          assert Writes(x, d, acts) == Writes(x, d, init);
        }
      } else {
        assert Writes(x, d, acts) == Writes(x, d, init);
      }
    }
  }

  lemma LastRevision(x: Syntax, rs: seq<Request>)
    ensures Revisions(x, rs)[|rs|] == Seen(ExecAll(x, MIGRATED, rs).config)
  {
  }
}
