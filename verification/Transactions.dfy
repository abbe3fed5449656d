/** DB.write of store/store.go as transactions that interleave statement by statement.
    The row lock taken by the first UPDATE is all that keeps them apart. */
module Transactions {
  import opened Basics
  import opened Schema

  /** PostgreSQL bumps and reads the watermark in one statement and every read sees the
      latest committed state. MySQL needs two statements, and its first plain read fixes
      the state that all later plain reads see. */
  datatype Dialect = Postgres | MySQL

  /** How far a transaction has come. */
  datatype Phase = Begun | Updated | Bumped | HaveCurrent | Resolved | TableWritten | Numbered | Appended

  /** A running transaction: its request, the state its plain reads are fixed to if any,
      its uncommitted watermark, and what it has read or decided so far. */
  datatype Tx = Tx(req: Request, phase: Phase, fixed: Option<Tables>, meta: int, rev: int,
                   cur: Option<Row>, value: string, format: Format, version: int)

  type TxId = nat

  /** committed is what other connections see; log lists the committed writes in order. */
  datatype State = State(dialect: Dialect, committed: Tables, lock: Option<TxId>, txs: map<TxId, Tx>,
                         log: seq<(Request, Written)>)

  datatype Action =
    | Begin(id: TxId, req: Request)
    | Update(id: TxId)
    | ReadRevision(id: TxId)
    | ReadCurrent(id: TxId)
    | ResolveValue(id: TxId)
    | WriteTable(id: TxId)
    | ReadMaxVersion(id: TxId)
    | AppendHistory(id: TxId)
    | Commit(id: TxId)
    | Abort(id: TxId)

  // ---------------------------------------------------------------- what a transaction reads

  /** The committed state that a plain read of tx is based on. */
  function Base(s: State, tx: Tx): Tables {
    if tx.fixed.Some? then tx.fixed.value else s.committed
  }

  predicate WroteTable(p: Phase) { p == TableWritten || p == Numbered || p == Appended }

  function VisibleConfig(s: State, tx: Tx): map<string, Row> {
    if WroteTable(tx.phase) then Put(Base(s, tx).config, tx.req, tx.value, tx.format) else Base(s, tx).config
  }

  function VisibleHistory(s: State, tx: Tx): seq<Entry> {
    if tx.phase == Appended then Base(s, tx).history + [NewEntry(tx)] else Base(s, tx).history
  }

  function NewEntry(tx: Tx): Entry { EntryFor(tx.req, tx.value, tx.format, tx.version) }

  /** The first plain read of a MySQL transaction fixes what the later ones see. */
  function Fix(s: State, tx: Tx): Tx {
    if s.dialect == MySQL && tx.fixed.None? then tx.(fixed := Some(s.committed)) else tx
  }

  // ---------------------------------------------------------------- steps

  /** The transaction ends without effect and releases the row lock if it held it. */
  function Drop(s: State, id: TxId): State {
    s.(txs := s.txs - {id}, lock := if s.lock == Some(id) then None else s.lock)
  }

  function Advance(s: State, id: TxId, tx: Tx): State { s.(txs := s.txs[id := tx]) }

  predicate Enabled(s: State, a: Action) {
    if a.Begin? then a.id !in s.txs && ValidKey(a.req.key) && ValidChange(a.req.change)
    else
      a.id in s.txs &&
      var p := s.txs[a.id].phase;
      match a
      case Begin(_, _) => true
      case Update(_) => p == Begun && s.lock.None?
      case ReadRevision(_) => p == Updated
      case ReadCurrent(_) => p == Bumped
      case ResolveValue(_) => p == HaveCurrent
      case WriteTable(_) => p == Resolved
      case ReadMaxVersion(_) => p == TableWritten
      case AppendHistory(_) => p == Numbered
      case Commit(_) => p == Appended
      case Abort(_) => true
  }

  function Step(x: Syntax, s: State, a: Action): State
    requires Enabled(s, a)
  {
    if a.Begin? then Advance(s, a.id, Tx(a.req, Begun, None, 0, 0, None, "", Raw, 0))
    else
      var tx := s.txs[a.id];
      match a
      case Begin(_, _) => s
      case Update(id) =>
        if s.committed.meta.None? then Drop(s, id)
        else
          var rev := s.committed.meta.value + 1;
          Advance(s, id, if s.dialect == Postgres then tx.(phase := Bumped, meta := rev, rev := rev)
                         else tx.(phase := Updated, meta := rev)).(lock := Some(id))
      case ReadRevision(id) => Advance(s, id, Fix(s, tx).(phase := Bumped, rev := tx.meta))
      case ReadCurrent(id) =>
        Advance(s, id, Fix(s, tx).(phase := HaveCurrent, cur := Lookup(VisibleConfig(s, tx), tx.req.key)))
      case ResolveValue(id) =>
        (match Resolve(tx.req, tx.cur, VisibleHistory(s, tx))
         case Err(_) => Drop(s, id)
         case Ok((value, format)) =>
           if !ValidValue(x, value, format) then Drop(s, id)
           else Advance(s, id, tx.(phase := Resolved, value := value, format := format)))
      case WriteTable(id) => Advance(s, id, tx.(phase := TableWritten))
      case ReadMaxVersion(id) =>
        Advance(s, id, tx.(phase := Numbered, version := MaxVersion(VisibleHistory(s, tx), tx.req.key) + 1))
      case AppendHistory(id) => Advance(s, id, tx.(phase := Appended))
      case Commit(id) =>
        Drop(s, id).(
          committed := Tables(Some(tx.meta), Put(s.committed.config, tx.req, tx.value, tx.format),
                              s.committed.history + [NewEntry(tx)]),
          log := s.log + [(tx.req, Written(tx.rev, tx.version))])
      case Abort(id) => Drop(s, id)
  }

  /** A run takes its actions in turn; one that cannot happen is skipped. */
  function Run(x: Syntax, s: State, acts: seq<Action>): State {
    if acts == [] then s
    else
      var before := Run(x, s, acts[..|acts| - 1]);
      var a := acts[|acts| - 1];
      if Enabled(before, a) then Step(x, before, a) else before
  }

  function Start(d: Dialect): State { State(d, MIGRATED, None, map[], []) }

  // ---------------------------------------------------------------- serializability

  function Requests(log: seq<(Request, Written)>): (rs: seq<Request>)
    ensures |rs| == |log|
    ensures forall i :: 0 <= i < |log| ==> rs[i] == log[i].0
  {
    seq(|log|, i requires 0 <= i < |log| => log[i].0)
  }

  /** The tables t and all reported results are those of running the logged writes one
      after the other, in commit order. */
  ghost predicate Serial(x: Syntax, t: Tables, log: seq<(Request, Written)>) {
    && t == ExecAll(x, MIGRATED, Requests(log))
    && forall i :: 0 <= i < |log| ==>
         Exec(x, ExecAll(x, MIGRATED, Requests(log)[..i]), log[i].0).1 == Ok(log[i].1)
  }

  predicate PastResolve(p: Phase) { p == Resolved || WroteTable(p) }

  predicate PastNumbered(p: Phase) { p == Numbered || p == Appended }

  /** What a transaction holding the lock knows is still true of the committed tables. */
  ghost predicate Current(x: Syntax, s: State, tx: Tx) {
    var t := s.committed;
    && tx.phase != Begun
    && (tx.fixed.Some? ==> tx.fixed.value == t)
    && (tx.fixed.Some? <==> s.dialect == MySQL && tx.phase != Updated)
    && t.meta.Some? && tx.meta == t.meta.value + 1
    && (tx.phase != Updated ==> tx.rev == tx.meta)
    && (tx.phase == HaveCurrent || PastResolve(tx.phase) ==> tx.cur == Lookup(t.config, tx.req.key))
    && (PastResolve(tx.phase) ==>
          Resolve(tx.req, tx.cur, t.history) == Ok((tx.value, tx.format)) && ValidValue(x, tx.value, tx.format))
    && (PastNumbered(tx.phase) ==> tx.version == MaxVersion(t.history, tx.req.key) + 1)
  }

  /** The holder of the lock is up to date; any other transaction has yet to begin in earnest. */
  ghost predicate TxLocked(x: Syntax, s: State, id: TxId)
    requires id in s.txs
  {
    && ValidKey(s.txs[id].req.key) && ValidChange(s.txs[id].req.change)
    && (if s.lock == Some(id) then Current(x, s, s.txs[id])
        else s.txs[id].phase == Begun && s.txs[id].fixed.None?)
  }

  /** Only the holder of the lock is past its first statement, and it is up to date. */
  ghost predicate Locked(x: Syntax, s: State) {
    && (s.lock.Some? ==> s.lock.value in s.txs)
    && forall id :: id in s.txs ==> TxLocked(x, s, id)
  }

  ghost predicate Safe(x: Syntax, s: State) { Serial(x, s.committed, s.log) && Locked(x, s) }

  lemma SerialExtends(x: Syntax, t: Tables, log: seq<(Request, Written)>, r: Request, w: Written, t': Tables)
    requires Serial(x, t, log) && Exec(x, t, r) == (t', Ok(w))
    ensures Serial(x, t', log + [(r, w)])
  {
    var rs, rs' := Requests(log), Requests(log + [(r, w)]);
    assert rs'[..|rs|] == rs;
    forall i | 0 <= i < |log| + 1
      ensures Exec(x, ExecAll(x, MIGRATED, rs'[..i]), (log + [(r, w)])[i].0).1 == Ok((log + [(r, w)])[i].1)
    {
      assert rs'[..i] == rs[..i];
      if i < |log| {
        assert (log + [(r, w)])[i] == log[i];
      } else {
        assert rs[..i] == rs;
      }
    }
  }

  /** The transaction holding the lock commits exactly what its request does to the
      tables that are committed at that moment. */
  lemma CommitIsExec(x: Syntax, s: State, id: TxId)
    requires Locked(x, s) && Enabled(s, Commit(id))
    ensures s.lock == Some(id)
    ensures Exec(x, s.committed, s.txs[id].req) ==
            (Step(x, s, Commit(id)).committed, Ok(Written(s.txs[id].rev, s.txs[id].version)))
  {
    hide MaxVersion, FindVersion, ValidKey, ValidChange, ValidValue;
  }

  /** Every step of every transaction keeps the run serializable. */
  lemma StepKeepsSafe(x: Syntax, s: State, a: Action)
    requires Safe(x, s) && Enabled(s, a)
    ensures Safe(x, Step(x, s, a))
  {
    var s' := Step(x, s, a);
    if a.Commit? {
      hide Exec, Serial;
      CommitIsExec(x, s, a.id);
      var tx := s.txs[a.id];
      SerialExtends(x, s.committed, s.log, tx.req, Written(tx.rev, tx.version), s'.committed);
      assert Locked(x, s') by { LockKept(x, s, a); }
    } else {
      hide Exec, Serial;
      LockKept(x, s, a);
    }
  }

  lemma OwnTxLocked(x: Syntax, s: State, a: Action)
    requires Locked(x, s) && Enabled(s, a) && a.id in Step(x, s, a).txs
    ensures TxLocked(x, Step(x, s, a), a.id)
  {
    hide MaxVersion, FindVersion, ValidKey, ValidChange, ValidValue, Resolve, Put, Lookup;
  }

  lemma OtherTxLocked(x: Syntax, s: State, a: Action, id: TxId)
    requires Locked(x, s) && Enabled(s, a) && id in Step(x, s, a).txs && id != a.id
    ensures TxLocked(x, Step(x, s, a), id)
  {
    hide MaxVersion, FindVersion, ValidKey, ValidChange, ValidValue, Resolve, Put, Lookup;
    assert id in s.txs && Step(x, s, a).txs[id] == s.txs[id];
  }

  lemma LockKept(x: Syntax, s: State, a: Action)
    requires Locked(x, s) && Enabled(s, a)
    ensures Locked(x, Step(x, s, a))
    ensures !a.Commit? ==> Step(x, s, a).committed == s.committed && Step(x, s, a).log == s.log
  {
    hide MaxVersion, FindVersion, ValidKey, ValidChange, ValidValue, Resolve, Put, Lookup, Current;
    forall id | id in Step(x, s, a).txs ensures TxLocked(x, Step(x, s, a), id) {
      if id == a.id {
        OwnTxLocked(x, s, a);
      } else {
        OtherTxLocked(x, s, a, id);
      }
    }
  }

  lemma {:induction false} RunsAreSafe(x: Syntax, d: Dialect, acts: seq<Action>)
    ensures Safe(x, Run(x, Start(d), acts))
  {
    if acts != [] {
      RunsAreSafe(x, d, acts[..|acts| - 1]);
      var before := Run(x, Start(d), acts[..|acts| - 1]);
      if Enabled(before, acts[|acts| - 1]) {
        StepKeepsSafe(x, before, acts[|acts| - 1]);
      }
    }
  }

  // ---------------------------------------------------------------- what every interleaving keeps

  lemma {:induction false} PrefixesConsistent(x: Syntax, rs: seq<Request>, n: nat)
    requires n <= |rs|
    ensures Consistent(x, ExecAll(x, MIGRATED, rs[..n]))
  {
    RunsAreConsistent(x, rs[..n]);
  }

  lemma NthCommit(x: Syntax, s: State, n: nat)
    requires Serial(x, s.committed, s.log) && n < |s.log|
    requires |ExecAll(x, MIGRATED, Requests(s.log)[..n]).history| == n
    ensures s.log[n].1.revision == n + 1
    ensures |ExecAll(x, MIGRATED, Requests(s.log)[..n + 1]).history| == n + 1
  {
    hide Exec, Consistent, Count, Records;
    var rs := Requests(s.log);
    assert rs[..n + 1][..n] == rs[..n];
    PrefixesConsistent(x, rs, n);
    ExecAppendsOne(x, ExecAll(x, MIGRATED, rs[..n]), rs[n]);
  }

  /** Counts the writes of a serial run that all succeeded. */
  lemma {:induction false} EachCommitCounts(x: Syntax, s: State, n: nat)
    requires Serial(x, s.committed, s.log) && n <= |s.log|
    ensures |ExecAll(x, MIGRATED, Requests(s.log)[..n]).history| == n
    ensures n < |s.log| ==> s.log[n].1.revision == n + 1
  {
    hide Exec, Serial;
    if n > 0 {
      EachCommitCounts(x, s, n - 1);
      NthCommit(x, s, n - 1);
    }
    if n < |s.log| {
      NthCommit(x, s, n);
    }
  }

  /** Whatever the interleaving: the i-th commit reports revision i, without gaps, the
      watermark is the number of commits, the config table is the replay of the history,
      and versions are consecutive for every key. */
  lemma EveryInterleaving(x: Syntax, d: Dialect, acts: seq<Action>)
    ensures var s := Run(x, Start(d), acts);
            && Consistent(x, s.committed)
            && s.committed.meta == Some(|s.log|)
            && forall i :: 0 <= i < |s.log| ==> s.log[i].1.revision == i + 1
  {
    var s := Run(x, Start(d), acts);
    RunsAreSafe(x, d, acts);
    RunsAreConsistent(x, Requests(s.log));
    forall i | 0 <= i < |s.log| ensures s.log[i].1.revision == i + 1 {
      EachCommitCounts(x, s, i);
    }
    EachCommitCounts(x, s, |s.log|);
    assert Requests(s.log)[..|s.log|] == Requests(s.log);
  }

  /** Only a commit changes what others see, and it only ever extends the history. */
  lemma HistoryOnlyGrows(x: Syntax, s: State, a: Action)
    requires Enabled(s, a)
    ensures s.committed.history <= Step(x, s, a).committed.history
    ensures !a.Commit? ==> Step(x, s, a).committed == s.committed
  {
  }

  /** In any two runs, one continuing the other, committed history and results are never revised. */
  lemma {:induction false} RunsOnlyExtend(x: Syntax, d: Dialect, acts: seq<Action>, more: seq<Action>)
    ensures var s, s' := Run(x, Start(d), acts), Run(x, Start(d), acts + more);
            s.committed.history <= s'.committed.history && s.log <= s'.log
  {
    if more == [] {
      assert acts + more == acts;
    } else {
      var init := more[..|more| - 1];
      RunsOnlyExtend(x, d, acts, init);
      assert (acts + more)[..|acts + more| - 1] == acts + init;
      assert (acts + more)[|acts + more| - 1] == more[|more| - 1];
    }
  }

  // ---------------------------------------------------------------- the holder gets to commit

  /** The statement that a transaction takes next. */
  function NextStatement(id: TxId, p: Phase): Action {
    match p
    case Begun => Update(id)
    case Updated => ReadRevision(id)
    case Bumped => ReadCurrent(id)
    case HaveCurrent => ResolveValue(id)
    case Resolved => WriteTable(id)
    case TableWritten => ReadMaxVersion(id)
    case Numbered => AppendHistory(id)
    case Appended => Commit(id)
  }

  /** The statements that the holder of the row lock has left. */
  function Remaining(id: TxId, p: Phase): seq<Action>
    requires p != Begun
    decreases Left(p)
  {
    [NextStatement(id, p)] + if p == Appended then [] else Remaining(id, PhaseAfter(p))
  }

  function PhaseAfter(p: Phase): (q: Phase)
    requires p != Begun && p != Appended
    ensures q != Begun && Left(q) < Left(p)
  {
    match p
    case Updated => Bumped
    case Bumped => HaveCurrent
    case HaveCurrent => Resolved
    case Resolved => TableWritten
    case TableWritten => Numbered
    case Numbered => Appended
  }

  function Left(p: Phase): nat {
    match p
    case Begun => 7
    case Updated => 6
    case Bumped => 5
    case HaveCurrent => 4
    case Resolved => 3
    case TableWritten => 2
    case Numbered => 1
    case Appended => 0
  }

  /** The holder's next statement succeeds if its request is acceptable: nothing is refused
      on the way, and the commit does exactly what the request does. */
  lemma HolderAdvances(x: Syntax, s: State, id: TxId)
    requires Locked(x, s) && s.lock == Some(id) && Exec(x, s.committed, s.txs[id].req).1.Ok?
    ensures var tx, a := s.txs[id], NextStatement(id, s.txs[id].phase);
            && Enabled(s, a)
            && var s' := Step(x, s, a);
               if tx.phase == Appended then
                 && s'.committed == Exec(x, s.committed, tx.req).0
                 && s'.log == s.log + [(tx.req, Exec(x, s.committed, tx.req).1.value)]
                 && s'.lock == None && s'.txs == s.txs - {id}
               else
                 && s'.lock == Some(id) && s'.committed == s.committed && s'.log == s.log
                 && s'.txs.Keys == s.txs.Keys && s'.txs[id].req == tx.req && s'.txs[id].phase == PhaseAfter(tx.phase)
                 && forall other :: other in s.txs && other != id ==> s'.txs[other] == s.txs[other]
  {
    hide MaxVersion, FindVersion, ValidKey, ValidChange, ValidValue;
    assert TxLocked(x, s, id);
    if s.txs[id].phase == Appended {
      CommitIsExec(x, s, id);
    }
  }

  /** If it is not, the statement that finds out ends the transaction without effect. */
  lemma HolderRefused(x: Syntax, s: State, id: TxId)
    requires Locked(x, s) && s.lock == Some(id) && Exec(x, s.committed, s.txs[id].req).1.Err?
    ensures var tx, a := s.txs[id], NextStatement(id, s.txs[id].phase);
            && Enabled(s, a) && (tx.phase == Updated || tx.phase == Bumped || tx.phase == HaveCurrent)
            && var s' := Step(x, s, a);
               && s'.committed == s.committed && s'.log == s.log
               && if tx.phase == HaveCurrent then s'.lock == None && s'.txs == s.txs - {id}
                  else s'.lock == Some(id) && s'.txs.Keys == s.txs.Keys && s'.txs[id].req == tx.req &&
                       s'.txs[id].phase == PhaseAfter(tx.phase)
  {
    hide MaxVersion, FindVersion, ValidKey, ValidChange, ValidValue;
    assert TxLocked(x, s, id);
  }

  /** Whatever other transactions do, they leave the holder and the committed tables alone. */
  lemma OthersLeaveHolder(x: Syntax, s: State, a: Action, id: TxId)
    requires Locked(x, s) && s.lock == Some(id) && Enabled(s, a) && a.id != id
    ensures var s' := Step(x, s, a);
            s'.lock == Some(id) && id in s'.txs && s'.txs[id] == s.txs[id] &&
            s'.committed == s.committed && s'.log == s.log
  {
    assert a.id in s.txs ==> TxLocked(x, s, a.id);
  }

  /** The actions of one transaction within an interleaving. */
  function Own(acts: seq<Action>, id: TxId): seq<Action> {
    if acts == [] then []
    else Own(acts[..|acts| - 1], id) + if acts[|acts| - 1].id == id then [acts[|acts| - 1]] else []
  }

  /** The holder has n statements less to go than in s, and nothing else has changed for it. */
  ghost predicate Progressed(x: Syntax, s: State, s': State, id: TxId, n: nat)
    requires id in s.txs && s.txs[id].phase != Begun
  {
    && Locked(x, s') && s'.lock == Some(id) && id in s'.txs
    && s'.committed == s.committed && s'.log == s.log
    && s'.txs[id].req == s.txs[id].req && s'.txs[id].phase != Begun
    && n <= |Remaining(id, s.txs[id].phase)|
    && Remaining(id, s'.txs[id].phase) == Remaining(id, s.txs[id].phase)[n..]
  }

  lemma OneProgresses(x: Syntax, s: State, s': State, a: Action, id: TxId, n: nat)
    requires id in s.txs && s.txs[id].phase != Begun && Progressed(x, s, s', id, n)
    requires Exec(x, s.committed, s.txs[id].req).1.Ok?
    requires if a.id == id then s'.txs[id].phase != Appended && a == NextStatement(id, s'.txs[id].phase) else Enabled(s', a)
    ensures Enabled(s', a) && Progressed(x, s, Step(x, s', a), id, if a.id == id then n + 1 else n)
  {
    hide Exec, Locked, Current;
    if a.id == id {
      HolderAdvances(x, s', id);
      assert Remaining(id, s'.txs[id].phase)[1..] == Remaining(id, s.txs[id].phase)[n + 1..];
    } else {
      OthersLeaveHolder(x, s', a, id);
    }
    LockKept(x, s', a);
  }

  /** The head of what remains is the next statement; it is not the commit if more follows. */
  lemma NextInLine(all: seq<Action>, n: nat, id: TxId, p: Phase)
    requires p != Begun && n < |all| && Remaining(id, p) == all[n..]
    ensures all[n] == NextStatement(id, p)
    ensures n + 1 < |all| ==> p != Appended
  {
    assert all[n] == all[n..][0];
  }

  lemma {:induction false} HolderProgresses(x: Syntax, s: State, acts: seq<Action>, id: TxId)
    requires Locked(x, s) && s.lock == Some(id) && Exec(x, s.committed, s.txs[id].req).1.Ok?
    requires s.txs[id].phase != Begun && Own(acts, id) < Remaining(id, s.txs[id].phase)
    ensures Progressed(x, s, Run(x, s, acts), id, |Own(acts, id)|)
  {
    assert id in s.txs;
    hide Exec, Locked, Current, TxLocked, Step, Remaining, NextStatement;
    var all := Remaining(id, s.txs[id].phase);
    if acts == [] {
      assert all[0..] == all;
    } else {
      var init, a := acts[..|acts| - 1], acts[|acts| - 1];
      assert Own(init, id) <= Own(acts, id);
      HolderProgresses(x, s, init, id);
      var s', n := Run(x, s, init), |Own(init, id)|;
      if a.id == id {
        assert Own(acts, id) == Own(init, id) + [a];
        hide Own, Run;
        assert a == Own(acts, id)[n] == all[n];
        NextInLine(all, n, id, s'.txs[id].phase);
        OneProgresses(x, s, s', a, id, n);
      } else if Enabled(s', a) {
        OneProgresses(x, s, s', a, id, n);
      }
    }
  }

  /** An acceptable request whose transaction holds the row lock is committed once its
      statements have been taken, however other transactions interleave, and does to the
      tables what it would have done alone. */
  lemma HolderCommits(x: Syntax, s: State, acts: seq<Action>, id: TxId)
    requires Locked(x, s) && s.lock == Some(id) && Exec(x, s.committed, s.txs[id].req).1.Ok?
    requires s.txs[id].phase != Begun
    requires acts != [] && acts[|acts| - 1] == Commit(id) && Own(acts, id) == Remaining(id, s.txs[id].phase)
    ensures var s', (t, res) := Run(x, s, acts), Exec(x, s.committed, s.txs[id].req);
            s'.committed == t && s'.log == s.log + [(s.txs[id].req, res.value)] && s'.lock == None && id !in s'.txs
  {
    assert id in s.txs;
    hide Exec, Locked, Current, TxLocked, Step;
    var init, all := acts[..|acts| - 1], Remaining(id, s.txs[id].phase);
    assert all == Own(init, id) + [Commit(id)];
    HolderProgresses(x, s, init, id);
    var s' := Run(x, s, init);
    assert Remaining(id, s'.txs[id].phase) == all[|all| - 1..] == [Commit(id)];
    LastStatement(id, s'.txs[id].phase);
    hide Remaining, Own;
    HolderAdvances(x, s', id);
    assert Run(x, s, acts) == Step(x, s', Commit(id));
  }

  lemma LastStatement(id: TxId, p: Phase)
    requires p != Begun && Remaining(id, p) == [Commit(id)]
    ensures p == Appended
  {
    assert Remaining(id, p)[0] == NextStatement(id, p);
  }

  // ---------------------------------------------------------------- one transaction by itself

  /** All statements of one write, in order. */
  function Statements(d: Dialect, id: TxId, req: Request): seq<Action> {
    [Begin(id, req), Update(id)] + Remaining(id, if d == MySQL then Updated else Bumped)
  }

  lemma {:induction false} RunAppend(x: Syntax, s: State, xs: seq<Action>, ys: seq<Action>)
    ensures Run(x, s, xs + ys) == Run(x, Run(x, s, xs), ys)
  {
    if ys == [] {
      assert xs + ys == xs;
    } else {
      RunAppend(x, s, xs, ys[..|ys| - 1]);
      assert (xs + ys)[..|xs + ys| - 1] == xs + ys[..|ys| - 1];
    }
  }

  lemma RunFirst(x: Syntax, s: State, a: Action, rest: seq<Action>)
    ensures Run(x, s, [a] + rest) == Run(x, if Enabled(s, a) then Step(x, s, a) else s, rest)
  {
    RunAppend(x, s, [a], rest);
    assert [a][..0] == [];
  }

  /** Statements of a transaction that has ended do nothing. */
  lemma {:induction false} GoneStaysGone(x: Syntax, s: State, id: TxId, p: Phase)
    requires p != Begun && id !in s.txs
    ensures Run(x, s, Remaining(id, p)) == s
    decreases Left(p)
  {
    if p == Appended {
      RunFirst(x, s, Commit(id), []);
      assert [Commit(id)] + [] == Remaining(id, p);
    } else {
      RunFirst(x, s, NextStatement(id, p), Remaining(id, PhaseAfter(p)));
      GoneStaysGone(x, s, id, PhaseAfter(p));
    }
  }

  lemma {:induction false} RefusedRun(x: Syntax, s: State, id: TxId)
    requires Locked(x, s) && s.lock == Some(id) && Exec(x, s.committed, s.txs[id].req).1.Err?
    requires s.txs[id].phase != Begun
    ensures var s' := Run(x, s, Remaining(id, s.txs[id].phase));
            s'.committed == s.committed && s'.log == s.log && s'.lock == None && id !in s'.txs
    decreases Left(s.txs[id].phase)
  {
    assert id in s.txs;
    hide Exec, Locked, Current, TxLocked, Step, Run;
    var p := s.txs[id].phase;
    var a := NextStatement(id, p);
    HolderRefused(x, s, id);
    LockKept(x, s, a);
    RunFirst(x, s, a, Remaining(id, PhaseAfter(p)));
    assert Remaining(id, p) == [a] + Remaining(id, PhaseAfter(p));
    if p == HaveCurrent {
      GoneStaysGone(x, Step(x, s, a), id, Resolved);
    } else {
      RefusedRun(x, Step(x, s, a), id);
    }
  }

  lemma {:induction false} OwnRemaining(id: TxId, acts: seq<Action>)
    requires forall i :: 0 <= i < |acts| ==> acts[i].id == id
    ensures Own(acts, id) == acts
  {
    if acts != [] {
      OwnRemaining(id, acts[..|acts| - 1]);
      assert acts == acts[..|acts| - 1] + [acts[|acts| - 1]];
    }
  }

  lemma {:induction false} RemainingShape(id: TxId, p: Phase)
    requires p != Begun
    ensures var all := Remaining(id, p);
            all[|all| - 1] == Commit(id) && forall i :: 0 <= i < |all| ==> all[i].id == id && !all[i].Begin?
    decreases Left(p)
  {
    if p != Appended {
      RemainingShape(id, PhaseAfter(p));
    }
  }

  /** A write that gets the free row lock and takes its statements does to the committed
      tables exactly what its request does, and is logged if and only if that succeeds. */
  lemma AloneIsExec(x: Syntax, s: State, id: TxId, req: Request)
    requires Locked(x, s) && s.lock == None && id !in s.txs && ValidKey(req.key) && ValidChange(req.change)
    ensures var s', (t, res) := Run(x, s, Statements(s.dialect, id, req)), Exec(x, s.committed, req);
            && s'.committed == t && s'.lock == None && id !in s'.txs
            && s'.log == s.log + if res.Ok? then [(req, res.value)] else []
  {
    var s1 := Step(x, s, Begin(id, req));
    var p := if s.dialect == MySQL then Updated else Bumped;
    var rest := Remaining(id, p);
    LockKept(x, s, Begin(id, req));
    assert Statements(s.dialect, id, req) == [Begin(id, req)] + ([Update(id)] + rest);
    RunFirst(x, s, Begin(id, req), [Update(id)] + rest);
    assert Enabled(s1, Update(id));
    RunFirst(x, s1, Update(id), rest);
    LockKept(x, s1, Update(id));
    var s2 := Step(x, s1, Update(id));
    if s.committed.meta.None? {
      GoneStaysGone(x, s2, id, p);
    } else {
      assert s2.lock == Some(id) && s2.txs[id].phase == p && s2.txs[id].req == req && s2.committed == s.committed;
      hide Exec, Locked, Current, TxLocked, Step, Run;
      if Exec(x, s.committed, req).1.Ok? {
        RemainingShape(id, p);
        OwnRemaining(id, rest);
        HolderCommits(x, s2, rest, id);
      } else {
        RefusedRun(x, s2, id);
        assert Exec(x, s.committed, req).0 == s.committed by { RefusedUnchanged(x, s.committed, req); }
      }
    }
  }

  lemma RefusedUnchanged(x: Syntax, t: Tables, req: Request)
    requires Exec(x, t, req).1.Err?
    ensures Exec(x, t, req).0 == t
  {
  }
}
