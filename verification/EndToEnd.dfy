/** The whole system: transactions interleaved statement by statement with the steps of
    watchers, handlers, pollers and clients, which see only what has been committed. */
module EndToEnd {
  import opened Basics
  import opened Schema
  import opened CommittedLog
  import T = Transactions
  import W = Watermark

  datatype State = State(db: T.State, servers: map<nat, W.Server>, clients: map<nat, W.Client>)

  datatype Action = Sql(sql: T.Action) | Net(net: W.Action)

  /** What a query outside a write transaction can see: the revision in the meta row and the
      config table as it stands. The contents of earlier revisions are gone. */
  ghost function Visible(s: State): W.State {
    var rev := if s.db.committed.meta.Some? then Max(s.db.committed.meta.value, 0) else 0;
    W.State(seq(rev, _ => map[]) + [Seen(s.db.committed.config)], s.servers, s.clients)
  }

  ghost predicate Enabled(s: State, a: Action) {
    match a
    case Sql(sql) => T.Enabled(s.db, sql)
    case Net(net) => !net.Write? && !net.Restore? && W.Enabled(Visible(s), net)
  }

  ghost function Step(x: Syntax, s: State, a: Action): State
    requires Enabled(s, a)
  {
    match a
    case Sql(sql) => s.(db := T.Step(x, s.db, sql))
    case Net(net) => var w := W.Step(Visible(s), net); s.(servers := w.servers, clients := w.clients)
  }

  /** A run takes its actions in turn; one that cannot happen is skipped. */
  ghost function Run(x: Syntax, d: T.Dialect, acts: seq<Action>): State {
    if acts == [] then State(T.Start(d), map[], map[])
    else
      var before := Run(x, d, acts[..|acts| - 1]);
      var a := acts[|acts| - 1];
      if Enabled(before, a) then Step(x, before, a) else before
  }

  // ---------------------------------------------------------------- the run as a run of the protocol

  /** The state with the contents of every revision in place of the database. */
  ghost function WithHistory(x: Syntax, s: State): W.State {
    W.State(Revisions(x, T.Requests(s.db.log)), s.servers, s.clients)
  }

  /** What one action is to the watermark protocol: a commit is a write, other statements are nothing. */
  ghost function AsProtocol(x: Syntax, before: State, a: Action): Option<W.Action> {
    if !Enabled(before, a) then None
    else if a.Net? then Some(a.net)
    else if a.sql.Commit? then Some(W.Write(Seen(T.Step(x, before.db, a.sql).committed.config)))
    else None
  }

  function ToSeq<A>(o: Option<A>): seq<A> { if o.Some? then [o.value] else [] }

  ghost function Protocol(x: Syntax, d: T.Dialect, acts: seq<Action>): seq<W.Action> {
    if acts == [] then []
    else
      var init := acts[..|acts| - 1];
      Protocol(x, d, init) + ToSeq(AsProtocol(x, Run(x, d, init), acts[|acts| - 1]))
  }

  /** The protocol's steps depend on nothing but the present revision and contents. */
  lemma OnlyPresentSeen(v: W.State, w: W.State, a: W.Action)
    requires v.servers == w.servers && v.clients == w.clients
    requires |v.log| == |w.log| > 0 && v.log[|v.log| - 1] == w.log[|w.log| - 1]
    requires !a.Write? && !a.Restore? && W.Enabled(v, a)
    ensures W.Enabled(w, a)
    ensures W.Step(v, a).servers == W.Step(w, a).servers && W.Step(v, a).clients == W.Step(w, a).clients
    ensures W.Step(w, a).log == w.log
  {
    hide W.Project;
    assert forall ps: seq<string> :: W.Present(v, ps) == W.Present(w, ps);
  }

  lemma SafeCounts(x: Syntax, db: T.State)
    requires T.Safe(x, db)
    ensures db.committed.meta == Some(|db.log|)
  {
    var rs := T.Requests(db.log);
    RunsAreConsistent(x, rs);
    T.EachCommitCounts(x, db, |db.log|);
    assert rs[..|db.log|] == rs;
  }

  /** Visible and WithHistory agree on what the protocol can observe. */
  lemma SamePresent(x: Syntax, s: State)
    requires T.Safe(x, s.db)
    ensures var v, w := Visible(s), WithHistory(x, s);
            |v.log| == |w.log| > 0 && v.log[|v.log| - 1] == w.log[|w.log| - 1] == Seen(s.db.committed.config)
  {
    SafeCounts(x, s.db);
    LastRevision(x, T.Requests(s.db.log));
  }

  lemma StepIsProtocol(x: Syntax, s: State, a: Action)
    requires T.Safe(x, s.db) && Enabled(s, a)
    ensures T.Safe(x, Step(x, s, a).db)
    ensures match AsProtocol(x, s, a)
            case None => WithHistory(x, Step(x, s, a)) == WithHistory(x, s)
            case Some(p) => W.Enabled(WithHistory(x, s), p) &&
                            WithHistory(x, Step(x, s, a)) == W.Step(WithHistory(x, s), p)
  {
    hide W.Project, W.Present, T.Safe, Revisions;
    match a
    case Net(net) =>
      SamePresent(x, s);
      OnlyPresentSeen(Visible(s), WithHistory(x, s), net);
    case Sql(sql) =>
      T.StepKeepsSafe(x, s.db, sql);
      CommitExtends(x, s.db, sql);
  }

  /** Every run of the whole system is a run of the watermark protocol, with a write for
      every commit, and keeps the transactions serializable. */
  lemma {:induction false} RunsAreProtocol(x: Syntax, d: T.Dialect, acts: seq<Action>)
    ensures T.Safe(x, Run(x, d, acts).db)
    ensures WithHistory(x, Run(x, d, acts)) == W.Run(W.Start(map[]), Protocol(x, d, acts))
  {
    if acts == [] {
      T.RunsAreSafe(x, d, []);
      assert Seen(MIGRATED.config) == map[];
    } else {
      hide T.Safe, Step, Enabled, W.Step, W.Enabled, AsProtocol, WithHistory;
      var init, a := acts[..|acts| - 1], acts[|acts| - 1];
      RunsAreProtocol(x, d, init);
      NextProtocol(x, d, init, a);
      assert acts == init + [a];
    }
  }

  lemma NextProtocol(x: Syntax, d: T.Dialect, init: seq<Action>, a: Action)
    requires T.Safe(x, Run(x, d, init).db)
    requires WithHistory(x, Run(x, d, init)) == W.Run(W.Start(map[]), Protocol(x, d, init))
    ensures T.Safe(x, Run(x, d, init + [a]).db)
    ensures WithHistory(x, Run(x, d, init + [a])) == W.Run(W.Start(map[]), Protocol(x, d, init + [a]))
  {
    hide T.Safe, Step, Enabled, W.Step, W.Enabled, WithHistory;
    var s := Run(x, d, init);
    assert (init + [a])[..|init|] == init;
    var next := AsProtocol(x, s, a);
    if Enabled(s, a) {
      StepIsProtocol(x, s, a);
    }
    assert Protocol(x, d, init) + [] == Protocol(x, d, init);
    if next.Some? {
      W.RunStep(W.Start(map[]), Protocol(x, d, init), next.value);
    }
  }

  // ---------------------------------------------------------------- from commit to client

  lemma {:induction false} ProtocolIsRestoreFree(x: Syntax, d: T.Dialect, acts: seq<Action>)
    ensures W.RestoreFree(Protocol(x, d, acts))
  {
    if acts != [] {
      ProtocolIsRestoreFree(x, d, acts[..|acts| - 1]);
    }
  }

  lemma {:induction false} RevisionAt(x: Syntax, rs: seq<Request>, n: nat)
    requires n <= |rs|
    ensures Revisions(x, rs)[n] == Seen(ExecAll(x, MIGRATED, rs[..n]).config)
  {
    if n == |rs| {
      LastRevision(x, rs);
      assert rs[..n] == rs;
    } else {
      RevisionAt(x, rs[..|rs| - 1], n);
      assert rs[..|rs| - 1][..n] == rs[..n];
    }
  }

  /** Whatever transactions, watchers, handlers and pollers do in whatever order: what a
      client has installed is what its prefixes select from the table after some number of
      committed writes, not fewer than its label says; and if the label is the revision in
      the meta row it is what they select from the table now. */
  lemma InstalledIsCommitted(x: Syntax, d: T.Dialect, acts: seq<Action>, id: nat)
    requires id in Run(x, d, acts).clients
    ensures var s := Run(x, d, acts);
            var c, rs := s.clients[id], T.Requests(s.db.log);
            && (c.cur == W.NO_SNAPSHOT ||
                (0 <= c.cur.tag <= c.cur.at <= |rs| &&
                 c.cur.data == W.Project(Seen(ExecAll(x, MIGRATED, rs[..c.cur.at]).config), c.prefixes)))
            && (s.db.committed.meta == Some(c.cur.tag) ==>
                  c.cur.data == W.Project(Seen(s.db.committed.config), c.prefixes))
  {
    var s := Run(x, d, acts);
    var c, rs := s.clients[id], T.Requests(s.db.log);
    RunsAreProtocol(x, d, acts);
    ProtocolIsRestoreFree(x, d, acts);
    W.LabelsNeverHigh(map[], Protocol(x, d, acts), id);
    SafeCounts(x, s.db);
    SamePresent(x, s);
    hide W.Project, Run, Protocol, W.Run, T.Safe;
    if c.cur != W.NO_SNAPSHOT {
      RevisionAt(x, rs, c.cur.at);
    }
  }
}
