/** The watermark protocol from the database to its clients, as interleaved steps: writers
    commit, each server's watcher polls, handlers and direct pollers label what they read,
    clients install it. */
module Watermark {
  import opened Basics
  import opened Schema
  import opened Prefixes
  import opened Broadcast

  datatype Item = Item(value: string, format: Format)

  type Contents = map<string, Item>

  /** A snapshot with its label, and the revision at which its data was really read. */
  datatype Snapshot = Snapshot(tag: int, data: Contents, at: int)

  /** A server instance: its watcher, and the revision its running poll has read, if any. */
  datatype Server = Server(mark: Mark, polled: Option<int>)

  /** Where the one fetch of a client stands.
      Blocked: in Wait of a server. Unlabelled: the handler still has to ask its watcher for
      the revision to show. Asking: that watcher was not ready, so the database is asked.
      Labelled: the handler knows which revision to show. Polling: a direct poller between
      its reads of the revision; it has made one or none yet. Bounded: it has read the
      database revision too (a direct poller has read only that). Fetched: it has the data. */
  datatype Fetch =
    | Idle
    | Blocked(srv: nat, gen: nat)
    | Unlabelled(srv: nat)
    | Asking
    | Labelled(rev: int)
    | Polling(read: bool)
    | Bounded(tag: int, dbRev: int)
    | Fetched(snap: Snapshot, dbRev: int)

  /** cur is the installed snapshot, labelled -1 before the first one; file is the fallback
      file; completed and installs count finished fetches and installed snapshots. */
  datatype Client = Client(prefixes: seq<string>, cur: Snapshot, fetch: Fetch,
                           completed: nat, installs: nat, file: Option<Snapshot>)

  /** log[r] is the contents of the config table at revision r. */
  datatype State = State(log: seq<Contents>, servers: map<nat, Server>, clients: map<nat, Client>)

  const NO_SNAPSHOT := Snapshot(-1, map[], -1)

  datatype Action =
    // database
    | Write(contents: Contents)
    | Restore(rev: int)
    // watchers
    | BootServer(srv: nat)
    | PollRead(srv: nat)
    | PollSet(srv: nat)
    | PollFail(srv: nat)
    // client life
    | BootClient(id: nat, prefixes: seq<string>)
    | Restart(id: nat)
    | LoadFile(id: nat)
    // one fetch
    | WaitEnter(id: nat, srv: nat)
    | Wake(id: nat)
    | TimeOut(id: nat)
    | ListEnter(id: nat, srv: nat)
    | Observe(id: nat)
    | AskDb(id: nat)
    | ReadDbRev(id: nat)
    | DirectStart(id: nat)
    | DirectRead(id: nat)
    | ReadData(id: nat)
    | Install(id: nat, wroteFile: bool)
    | Fail(id: nat)

  /** The revision of the database. */
  function Rev(s: State): int { |s.log| - 1 }

  /** The part of the contents that a prefix list asks for. */
  ghost function Project(c: Contents, ps: seq<string>): Contents {
    map k | k in c && Selects(ps, k) :: c[k]
  }

  /** The part of the present contents that a prefix list asks for. */
  ghost function Present(s: State, ps: seq<string>): Contents {
    if s.log == [] then map[] else Project(s.log[Rev(s)], ps)
  }

  // ---------------------------------------------------------------- steps

  predicate Enabled(s: State, a: Action) {
    match a
    case Write(_) => true
    case Restore(rev) => 0 <= rev <= Rev(s)
    case BootServer(srv) => srv !in s.servers
    case PollRead(srv) => srv in s.servers && s.servers[srv].polled.None?
    case PollSet(srv) => srv in s.servers && s.servers[srv].polled.Some?
    case PollFail(srv) => srv in s.servers && s.servers[srv].polled.Some?
    case BootClient(id, _) => id !in s.clients
    case Restart(id) => id in s.clients
    case LoadFile(id) => id in s.clients && s.clients[id].fetch.Idle? && s.clients[id].cur == NO_SNAPSHOT &&
                         s.clients[id].file.Some?
    case WaitEnter(id, srv) => id in s.clients && s.clients[id].fetch.Idle? && srv in s.servers
    case Wake(id) => id in s.clients && s.clients[id].fetch.Blocked? && s.clients[id].fetch.srv in s.servers &&
                     s.clients[id].fetch.gen < s.servers[s.clients[id].fetch.srv].mark.gen
    case TimeOut(id) => id in s.clients && (s.clients[id].fetch.Blocked? || s.clients[id].fetch == Polling(true))
    case ListEnter(id, srv) => id in s.clients && s.clients[id].fetch.Idle? && srv in s.servers
    case Observe(id) => id in s.clients && s.clients[id].fetch.Unlabelled? && s.clients[id].fetch.srv in s.servers
    case AskDb(id) => id in s.clients && s.clients[id].fetch.Asking?
    case ReadDbRev(id) => id in s.clients && s.clients[id].fetch.Labelled?
    case DirectStart(id) => id in s.clients && s.clients[id].fetch.Idle?
    case DirectRead(id) => id in s.clients && s.clients[id].fetch.Polling?
    case ReadData(id) => id in s.clients && s.clients[id].fetch.Bounded?
    case Install(id, _) => id in s.clients && s.clients[id].fetch.Fetched?
    case Fail(id) => id in s.clients
  }

  function WithServer(s: State, srv: nat, v: Server): State { s.(servers := s.servers[srv := v]) }

  function WithClient(s: State, id: nat, c: Client): State { s.(clients := s.clients[id := c]) }

  function WithFetch(s: State, id: nat, f: Fetch): State
    requires id in s.clients
  {
    WithClient(s, id, s.clients[id].(fetch := f))
  }

  /** The revision an answer of Wait shows; before the first poll there is none yet. */
  function Answered(srv: nat, m: Mark): Fetch {
    if m.rev < 0 then Unlabelled(srv) else Labelled(m.rev)
  }

  ghost function Step(s: State, a: Action): State
    requires Enabled(s, a)
  {
    match a
    case Write(contents) => s.(log := s.log + [contents])
    case Restore(rev) => s.(log := s.log[..rev + 1])
    case BootServer(srv) => WithServer(s, srv, Server(INITIAL, None))
    case PollRead(srv) => WithServer(s, srv, s.servers[srv].(polled := Some(Rev(s))))
    case PollSet(srv) =>
      var v := s.servers[srv];
      WithServer(s, srv, Server(SetMark(v.mark, v.polled.value), None))
    case PollFail(srv) => WithServer(s, srv, s.servers[srv].(polled := None))
    case BootClient(id, ps) => WithClient(s, id, Client(ps, NO_SNAPSHOT, Idle, 0, 0, None))
    case Restart(id) => WithClient(s, id, s.clients[id].(cur := NO_SNAPSHOT, fetch := Idle))
    case LoadFile(id) => WithClient(s, id, s.clients[id].(cur := s.clients[id].file.value))
    case WaitEnter(id, srv) =>
      var m, since := s.servers[srv].mark, s.clients[id].cur.tag;
      WithFetch(s, id, if ReturnsAtOnce(m, since) then Answered(srv, m) else Blocked(srv, m.gen))
    case Wake(id) =>
      var srv := s.clients[id].fetch.srv;
      WithFetch(s, id, Answered(srv, s.servers[srv].mark))
    case TimeOut(id) =>
      WithClient(s, id, s.clients[id].(fetch := Idle, completed := s.clients[id].completed + 1))
    case ListEnter(id, srv) => WithFetch(s, id, Unlabelled(srv))
    case Observe(id) =>
      var m := s.servers[s.clients[id].fetch.srv].mark;
      WithFetch(s, id, if m.ready then Labelled(m.rev) else Asking)
    case AskDb(id) => WithFetch(s, id, Labelled(Rev(s)))
    case ReadDbRev(id) => WithFetch(s, id, Bounded(Min(s.clients[id].fetch.rev, Rev(s)), Rev(s)))
    case DirectStart(id) => WithFetch(s, id, Polling(false))
    case DirectRead(id) =>
      WithFetch(s, id, if Rev(s) != s.clients[id].cur.tag then Bounded(Rev(s), Rev(s)) else Polling(true))
    case ReadData(id) =>
      var c := s.clients[id];
      WithFetch(s, id, Fetched(Snapshot(c.fetch.tag, Present(s, c.prefixes), Rev(s)), c.fetch.dbRev))
    case Install(id, wroteFile) =>
      var c := s.clients[id];
      WithClient(s, id, Client(c.prefixes, c.fetch.snap, Idle, c.completed + 1, c.installs + 1,
                               if wroteFile then Some(c.fetch.snap) else c.file))
    case Fail(id) => WithFetch(s, id, Idle)
  }

  /** A run takes its actions in turn; one that cannot happen is skipped. */
  ghost function Run(s: State, acts: seq<Action>): State {
    if acts == [] then s
    else
      var before := Run(s, acts[..|acts| - 1]);
      var a := acts[|acts| - 1];
      if Enabled(before, a) then Step(before, a) else before
  }

  /** A fresh database with contents c0 at revision 0, no servers and no clients yet. */
  function Start(c0: Contents): State { State([c0], map[], map[]) }

  predicate RestoreFree(acts: seq<Action>) { forall i :: 0 <= i < |acts| ==> !acts[i].Restore? }

  // ---------------------------------------------------------------- labels are never high

  /** The snapshot holds exactly the projection of the database at revision at, and its
      label is not above that. */
  ghost predicate Honest(log: seq<Contents>, ps: seq<string>, p: Snapshot) {
    0 <= p.tag <= p.at < |log| && p.data == Project(log[p.at], ps)
  }

  ghost predicate ServerSound(log: seq<Contents>, v: Server) {
    && -1 <= v.mark.rev < |log| && (v.mark.ready <==> v.mark.rev >= 0)
    && (v.polled.Some? ==> 0 <= v.polled.value && v.mark.rev <= v.polled.value < |log|)
  }

  ghost predicate FetchSound(s: State, c: Client) {
    match c.fetch
    case Idle => true
    case Polling(_) => true
    case Blocked(srv, gen) => srv in s.servers
    case Unlabelled(srv) => srv in s.servers
    case Asking => true
    case Labelled(rev) => 0 <= rev <= Rev(s)
    case Bounded(tag, dbRev) => 0 <= tag <= dbRev <= Rev(s)
    case Fetched(snap, dbRev) => Honest(s.log, c.prefixes, snap) && snap.tag <= dbRev <= snap.at && c.cur.at <= snap.at
  }

  ghost predicate ClientSound(s: State, c: Client) {
    && (c.cur == NO_SNAPSHOT || Honest(s.log, c.prefixes, c.cur))
    && (c.file.Some? ==> Honest(s.log, c.prefixes, c.file.value))
    && FetchSound(s, c)
  }

  ghost predicate Sound(s: State) {
    && s.log != []
    && (forall srv :: srv in s.servers ==> ServerSound(s.log, s.servers[srv]))
    && (forall id :: id in s.clients ==> ClientSound(s, s.clients[id]))
  }

  /** Commits and new servers take nothing away from what a client holds. */
  lemma ClientFramed(s: State, s': State, c: Client)
    requires ClientSound(s, c) && s.log <= s'.log && s.servers.Keys <= s'.servers.Keys
    ensures ClientSound(s', c)
  {
    hide Project;
    assert forall i :: 0 <= i < |s.log| ==> s.log[i] == s'.log[i];
  }

  /** The client an action is about. */
  predicate IsClientAction(a: Action) {
    !(a.Write? || a.Restore? || a.BootServer? || a.PollRead? || a.PollSet? || a.PollFail?)
  }

  lemma ServerStep(s: State, a: Action)
    requires Sound(s) && Enabled(s, a) && !a.Restore? && !IsClientAction(a)
    ensures var s' := Step(s, a);
            && s.log <= s'.log && s'.log != [] && s.servers.Keys <= s'.servers.Keys && s'.clients == s.clients
            && forall srv :: srv in s'.servers ==> ServerSound(s'.log, s'.servers[srv])
  {
    hide Project, FetchSound, ClientSound;
    var s' := Step(s, a);
    forall srv | srv in s'.servers ensures ServerSound(s'.log, s'.servers[srv]) {
      if srv in s.servers {
        assert ServerSound(s.log, s.servers[srv]);
      }
    }
  }

  /** Steps that take a value from a server: the entry of a fetch and its waking up. */
  lemma ServerAnswers(s: State, a: Action)
    requires Sound(s) && Enabled(s, a) && (a.WaitEnter? || a.ListEnter? || a.Wake? || a.Observe?)
    ensures ClientSound(s, Step(s, a).clients[a.id])
  {
    hide Project, Honest;
    assert ClientSound(s, s.clients[a.id]);
    assert ServerSound(s.log, s.servers[if a.WaitEnter? || a.ListEnter? then a.srv else s.clients[a.id].fetch.srv]);
  }

  lemma ClientAlone(s: State, a: Action)
    requires Sound(s) && Enabled(s, a) && IsClientAction(a)
    requires !(a.WaitEnter? || a.ListEnter? || a.Wake? || a.Observe?)
    ensures ClientSound(s, Step(s, a).clients[a.id])
  {
    hide Project;
    if a.id in s.clients {
      assert ClientSound(s, s.clients[a.id]);
    }
  }

  lemma ClientStep(s: State, a: Action)
    requires Sound(s) && Enabled(s, a) && IsClientAction(a)
    ensures var s' := Step(s, a);
            && s'.log == s.log && s'.servers == s.servers && s'.clients.Keys == s.clients.Keys + {a.id}
            && (forall id :: id in s.clients && id != a.id ==> s'.clients[id] == s.clients[id])
            && ClientSound(s, s'.clients[a.id])
  {
    hide Project, Sound, ClientSound;
    if a.WaitEnter? || a.ListEnter? || a.Wake? || a.Observe? {
      ServerAnswers(s, a);
    } else {
      ClientAlone(s, a);
    }
  }

  lemma StepKeepsSound(s: State, a: Action)
    requires Sound(s) && Enabled(s, a) && !a.Restore?
    ensures Sound(Step(s, a))
  {
    hide Step, ClientSound, ServerSound;
    var s' := Step(s, a);
    if IsClientAction(a) {
      ClientStep(s, a);
    } else {
      ServerStep(s, a);
    }
    forall id | id in s'.clients ensures ClientSound(s', s'.clients[id]) {
      ClientFramed(s, s', s'.clients[id]);
    }
  }

  lemma {:induction false} RunsAreSound(c0: Contents, acts: seq<Action>)
    requires RestoreFree(acts)
    ensures Sound(Run(Start(c0), acts))
  {
    if acts != [] {
      RunsAreSound(c0, acts[..|acts| - 1]);
      var before := Run(Start(c0), acts[..|acts| - 1]);
      if Enabled(before, acts[|acts| - 1]) {
        StepKeepsSound(before, acts[|acts| - 1]);
      }
    }
  }

  /** On every restore-free interleaving, what a client has installed is the projection of
      the database at some revision not below its label; if the label is the present
      revision it is the present contents. */
  lemma LabelsNeverHigh(c0: Contents, acts: seq<Action>, id: nat)
    requires RestoreFree(acts) && id in Run(Start(c0), acts).clients
    ensures var s := Run(Start(c0), acts);
            var c := s.clients[id];
            && (c.cur == NO_SNAPSHOT || Honest(s.log, c.prefixes, c.cur))
            && (c.cur.tag == Rev(s) ==> c.cur.data == Present(s, c.prefixes))
  {
    RunsAreSound(c0, acts);
    var s := Run(Start(c0), acts);
    assert ClientSound(s, s.clients[id]);
  }

  /** One list request that nothing interrupts, up to the snapshot in the handler's hands. */
  ghost function Served(s: State, id: nat, srv: nat): State
    requires IsIdle(s, id) && srv in s.servers
  {
    Step(Step(Observed(s, id, srv), ReadDbRev(id)), ReadData(id))
  }

  ghost function Observed(s: State, id: nat, srv: nat): (s': State)
    requires IsIdle(s, id) && srv in s.servers
    ensures s'.log == s.log && id in s'.clients && s'.clients[id].prefixes == s.clients[id].prefixes
    ensures s'.clients[id].fetch == Labelled(if s.servers[srv].mark.ready then s.servers[srv].mark.rev else Rev(s))
  {
    var asked := Step(Step(s, ListEnter(id, srv)), Observe(id));
    if s.servers[srv].mark.ready then asked else Step(asked, AskDb(id))
  }

  /** The label is the watcher's revision once that has polled, but never above the database's. */
  lemma ServedLabel(s: State, id: nat, srv: nat)
    requires IsIdle(s, id) && srv in s.servers && s.log != []
    ensures var m, rev := s.servers[srv].mark, |s.log| - 1;
            id in Served(s, id, srv).clients &&
            Served(s, id, srv).clients[id].fetch ==
            Fetched(Snapshot(if m.ready && m.rev <= rev then m.rev else rev,
                             Project(s.log[rev], s.clients[id].prefixes), rev), rev)
  {
    hide Project, Observed;
  }

  predicate KeepsRunning(acts: seq<Action>, id: nat) {
    forall i :: 0 <= i < |acts| ==> acts[i] != Restart(id) && acts[i] != LoadFile(id)
  }

  lemma ClientsStay(s: State, a: Action)
    requires Enabled(s, a)
    ensures s.clients.Keys <= Step(s, a).clients.Keys
  {
    hide Project;
  }

  lemma {:induction false} SoundRunFrom(s: State, acts: seq<Action>)
    requires Sound(s) && RestoreFree(acts)
    ensures Sound(Run(s, acts))
    ensures s.clients.Keys <= Run(s, acts).clients.Keys
  {
    hide Step, Sound, Enabled;
    if acts != [] {
      SoundRunFrom(s, acts[..|acts| - 1]);
      var before := Run(s, acts[..|acts| - 1]);
      if Enabled(before, acts[|acts| - 1]) {
        StepKeepsSound(before, acts[|acts| - 1]);
        ClientsStay(before, acts[|acts| - 1]);
      }
    }
  }

  /** While a client keeps running, its data never goes back in time, whatever its labels
      do as it switches between servers and direct polling. */
  lemma {:induction false} InstallsNeverGoBack(s: State, acts: seq<Action>, id: nat)
    requires Sound(s) && RestoreFree(acts) && id in s.clients && KeepsRunning(acts, id)
    ensures id in Run(s, acts).clients && s.clients[id].cur.at <= Run(s, acts).clients[id].cur.at
  {
    if acts != [] {
      var init, a := acts[..|acts| - 1], acts[|acts| - 1];
      InstallsNeverGoBack(s, init, id);
      SoundRunFrom(s, init);
      var before := Run(s, init);
      if Enabled(before, a) {
        StepNeverGoesBack(before, a, id);
      }
    }
  }

  lemma StepNeverGoesBack(s: State, a: Action, id: nat)
    requires Sound(s) && Enabled(s, a) && !a.Restore? && id in s.clients && a != Restart(id) && a != LoadFile(id)
    ensures id in Step(s, a).clients && s.clients[id].cur.at <= Step(s, a).clients[id].cur.at
  {
    hide Project, Honest, ServerSound;
    if IsClientAction(a) && a.id == id {
      assert ClientSound(s, s.clients[id]);
    }
  }

  // ---------------------------------------------------------------- nothing is skipped forever

  /** Every watcher has polled since the database last moved, and no older poll is under way. */
  ghost predicate Settled(s: State) {
    && s.log != []
    && forall srv :: srv in s.servers ==>
         var v := s.servers[srv];
         v.mark.ready && v.mark.rev == Rev(s) && (v.polled.Some? ==> v.polled.value == Rev(s))
  }

  /** Nothing is written or restored. */
  predicate AllStill(acts: seq<Action>) { forall i :: 0 <= i < |acts| ==> !acts[i].Write? && !acts[i].Restore? }

  /** Action i of a run happens and is the one given. */
  ghost predicate Happens(s: State, acts: seq<Action>, i: nat, a: Action) {
    i < |acts| && acts[i] == a && Enabled(Run(s, acts[..i]), a)
  }

  /** In the run the watcher of srv reads the revision and, later, records what it read. */
  ghost predicate Polls(s: State, acts: seq<Action>, srv: nat) {
    exists i: nat, j: nat :: i < j && Happens(s, acts, i, PollRead(srv)) && Happens(s, acts, j, PollSet(srv))
  }

  /** Every server that is there in the end has polled. */
  ghost predicate AllPoll(s: State, acts: seq<Action>) {
    forall srv :: srv in Run(s, acts).servers ==> Polls(s, acts, srv)
  }

  /** No poll of the server from before the database last moved is under way. */
  ghost predicate PollFresh(s: State, srv: nat) {
    srv in s.servers && (s.servers[srv].polled.Some? ==> s.servers[srv].polled.value == Rev(s))
  }

  ghost predicate WatcherSettled(s: State, srv: nat) {
    PollFresh(s, srv) && s.servers[srv].mark.ready && s.servers[srv].mark.rev == Rev(s)
  }

  lemma StillStep(s: State, a: Action, srv: nat)
    requires Enabled(s, a) && !a.Write? && !a.Restore?
    ensures Step(s, a).log == s.log
    ensures PollFresh(s, srv) || a == PollRead(srv) ==> PollFresh(Step(s, a), srv)
    ensures WatcherSettled(s, srv) || (PollFresh(s, srv) && a == PollSet(srv)) ==> WatcherSettled(Step(s, a), srv)
  {
    hide Project, Present;
  }

  /** What is fresh or settled after n actions of a still run remains so. */
  lemma {:induction false} StillRun(s: State, acts: seq<Action>, n: nat, srv: nat)
    requires AllStill(acts) && n <= |acts|
    ensures Run(s, acts).log == s.log
    ensures PollFresh(Run(s, acts[..n]), srv) ==> PollFresh(Run(s, acts), srv)
    ensures WatcherSettled(Run(s, acts[..n]), srv) ==> WatcherSettled(Run(s, acts), srv)
  {
    if n == |acts| {
      assert acts[..n] == acts;
      if acts != [] {
        StillRun(s, acts, n - 1, srv);
      }
    } else {
      hide Step, Enabled, PollFresh, WatcherSettled;
      var init, a := acts[..|acts| - 1], acts[|acts| - 1];
      assert init[..n] == acts[..n];
      StillRun(s, init, n, srv);
      if Enabled(Run(s, init), a) {
        StillStep(Run(s, init), a, srv);
      }
    }
  }

  lemma HappensThen(s: State, acts: seq<Action>, i: nat, a: Action)
    requires Happens(s, acts, i, a)
    ensures Run(s, acts[..i + 1]) == Step(Run(s, acts[..i]), a)
  {
    assert acts[..i + 1][..i] == acts[..i];
  }

  /** A poll that runs from start to end after the database last moved settles its watcher,
      whatever it held before and however many polls were under way. */
  lemma PollSettles(s: State, acts: seq<Action>, srv: nat)
    requires AllStill(acts) && Polls(s, acts, srv)
    ensures WatcherSettled(Run(s, acts), srv)
  {
    hide Step, Enabled, PollFresh, WatcherSettled, Run;
    var i: nat, j: nat :| i < j && Happens(s, acts, i, PollRead(srv)) && Happens(s, acts, j, PollSet(srv));
    HappensThen(s, acts, i, PollRead(srv));
    StillStep(Run(s, acts[..i]), PollRead(srv), srv);
    assert acts[..j][..i + 1] == acts[..i + 1];
    StillRun(s, acts[..j], i + 1, srv);
    HappensThen(s, acts, j, PollSet(srv));
    StillStep(Run(s, acts[..j]), PollSet(srv), srv);
    StillRun(s, acts, j + 1, srv);
  }

  /** From any state whatever, also after restores: once every watcher has polled, the
      system is settled. */
  lemma PollsSettle(s: State, acts: seq<Action>)
    requires s.log != [] && AllStill(acts) && AllPoll(s, acts)
    ensures Settled(Run(s, acts)) && Run(s, acts).log == s.log
  {
    StillRun(s, acts, |acts|, 0);
    forall srv | srv in Run(s, acts).servers ensures WatcherSettled(Run(s, acts), srv) {
      PollSettles(s, acts, srv);
    }
  }

  /** Actions that do not move the database, start no server, and let the client in question
      only poll, not list, restart or load its file. */
  predicate Quiet(a: Action, id: nat) {
    && !(a.Write? || a.Restore? || a.BootServer?)
    && !((a.ListEnter? || a.Restart? || a.LoadFile?) && a.id == id)
  }

  predicate AllQuiet(acts: seq<Action>, id: nat) { forall i :: 0 <= i < |acts| ==> Quiet(acts[i], id) }

  /** What a client that was idle with snapshot p holds after a finished poll. */
  ghost function Expected(s: State, ps: seq<string>, p: Snapshot): Contents {
    if p.tag == Rev(s) then p.data else Present(s, ps)
  }

  ghost predicate FetchOnTrack(s: State, c: Client) {
    match c.fetch
    case Idle => true
    case Polling(read) => read ==> c.cur.tag == Rev(s)
    case Blocked(srv, gen) => srv in s.servers && gen == s.servers[srv].mark.gen && c.cur.tag == Rev(s)
    case Unlabelled(_) => false
    case Asking => false
    case Labelled(rev) => rev == Rev(s) != c.cur.tag
    case Bounded(tag, _) => tag == Rev(s) != c.cur.tag
    case Fetched(snap, _) => snap.tag == Rev(s) != c.cur.tag && snap.data == Present(s, c.prefixes)
  }

  /** c has come from the idle client c0 by polls of a settled system. */
  ghost predicate OnTrack(s: State, c0: Client, c: Client) {
    && c.prefixes == c0.prefixes && FetchOnTrack(s, c)
    && c.completed >= c0.completed
    && (c.completed == c0.completed ==> c.cur == c0.cur && c.installs == c0.installs)
    && (c.completed > c0.completed ==>
          && c.cur.tag == Rev(s) && c.cur.data == Expected(s, c0.prefixes, c0.cur)
          && c.installs == c0.installs + if c0.cur.tag == Rev(s) then 0 else 1)
  }

  lemma QuietKeepsSettled(s: State, a: Action)
    requires Settled(s) && Enabled(s, a) && !(a.Write? || a.Restore? || a.BootServer?)
    ensures var s' := Step(s, a);
            && Settled(s') && s'.log == s.log && s'.servers.Keys == s.servers.Keys
            && s.clients.Keys <= s'.clients.Keys
            && forall srv :: srv in s.servers ==> s'.servers[srv].mark == s.servers[srv].mark
  {
    hide Project;
  }

  lemma QuietKeepsOnTrack(s: State, a: Action, id: nat, c0: Client)
    requires Settled(s) && Enabled(s, a) && Quiet(a, id)
    requires id in s.clients && OnTrack(s, c0, s.clients[id])
    ensures id in Step(s, a).clients && Step(s, a).log == s.log && OnTrack(Step(s, a), c0, Step(s, a).clients[id])
  {
    hide Project;
    QuietKeepsSettled(s, a);
    if IsClientAction(a) && a.id == id {
      OwnStepOnTrack(s, a, c0);
    }
  }

  lemma OwnStepOnTrack(s: State, a: Action, c0: Client)
    requires Settled(s) && Enabled(s, a) && IsClientAction(a) && Quiet(a, a.id)
    requires a.id in s.clients && OnTrack(s, c0, s.clients[a.id])
    ensures a.id in Step(s, a).clients && Step(s, a).log == s.log && OnTrack(Step(s, a), c0, Step(s, a).clients[a.id])
  {
    hide Project;
    if a.WaitEnter? {
      assert s.servers[a.srv].mark.rev == Rev(s);
    }
  }

  /** Polls of a settled system, from an idle client on. */
  lemma {:induction false} PollOutcome(s: State, acts: seq<Action>, id: nat)
    requires Settled(s) && IsIdle(s, id) && AllQuiet(acts, id)
    ensures var s' := Run(s, acts);
            && Settled(s') && s'.log == s.log && id in s'.clients
            && OnTrack(s', s.clients[id], s'.clients[id])
  {
    if acts != [] {
      PollOutcome(s, acts[..|acts| - 1], id);
      var before := Run(s, acts[..|acts| - 1]);
      if Enabled(before, acts[|acts| - 1]) {
        QuietKeepsSettled(before, acts[|acts| - 1]);
        QuietKeepsOnTrack(before, acts[|acts| - 1], id, s.clients[id]);
      }
    }
  }

  lemma {:induction false} RunAppend(s: State, xs: seq<Action>, ys: seq<Action>)
    ensures Run(s, xs + ys) == Run(Run(s, xs), ys)
  {
    if ys == [] {
      assert xs + ys == xs;
    } else {
      RunAppend(s, xs, ys[..|ys| - 1]);
      assert (xs + ys)[..|xs + ys| - 1] == xs + ys[..|ys| - 1];
    }
  }

  /** How many fetches a client has finished. */
  ghost function Finished(s: State, id: nat): nat { if id in s.clients then s.clients[id].completed else 0 }

  ghost predicate IsIdle(s: State, id: nat) { id in s.clients && s.clients[id].fetch.Idle? }

  /** Label and contents of the client are those of the database. */
  ghost predicate UpToDate(s: State, id: nat) {
    && id in s.clients
    && s.clients[id].cur.tag == Rev(s)
    && s.clients[id].cur.data == Present(s, s.clients[id].prefixes)
  }

  /** The client has finished n fetches, so its next one is on track; or more, so it is up to date. */
  ghost predicate Converging(s: State, c: Client, n: nat) {
    && (c.completed >= n ==> FetchOnTrack(s, c))
    && (c.completed > n ==> c.cur.tag == Rev(s) && c.cur.data == Present(s, c.prefixes))
  }

  lemma QuietConverges(s: State, a: Action, id: nat, n: nat)
    requires Sound(s) && Settled(s) && Enabled(s, a) && Quiet(a, id)
    requires id in s.clients && Converging(s, s.clients[id], n)
    ensures id in Step(s, a).clients && Step(s, a).log == s.log && Converging(Step(s, a), Step(s, a).clients[id], n)
  {
    hide Project, Sound;
    QuietKeepsSettled(s, a);
    if IsClientAction(a) && a.id == id {
      OwnStepConverges(s, a, n);
    }
  }

  lemma OwnStepConverges(s: State, a: Action, n: nat)
    requires Sound(s) && Settled(s) && Enabled(s, a) && IsClientAction(a) && Quiet(a, a.id)
    requires a.id in s.clients && Converging(s, s.clients[a.id], n)
    ensures a.id in Step(s, a).clients && Step(s, a).log == s.log
    ensures Converging(Step(s, a), Step(s, a).clients[a.id], n)
  {
    hide Project;
    assert ClientSound(s, s.clients[a.id]);
    if a.WaitEnter? {
      assert s.servers[a.srv].mark.rev == Rev(s);
    }
  }

  lemma {:induction false} QuietRunConverges(s: State, acts: seq<Action>, id: nat, n: nat)
    requires Sound(s) && Settled(s) && AllQuiet(acts, id)
    requires id in s.clients && Converging(s, s.clients[id], n)
    ensures var s' := Run(s, acts);
            Settled(s') && s'.log == s.log && id in s'.clients && Converging(s', s'.clients[id], n)
  {
    hide Step, Sound, Settled, Converging, Enabled;
    if acts != [] {
      QuietRunConverges(s, acts[..|acts| - 1], id, n);
      SoundRunFrom(s, acts[..|acts| - 1]);
      var before := Run(s, acts[..|acts| - 1]);
      if Enabled(before, acts[|acts| - 1]) {
        QuietKeepsSettled(before, acts[|acts| - 1]);
        QuietConverges(before, acts[|acts| - 1], id, n);
      }
    }
  }

  /** An up-to-date client whose fetch is on track stays as it is. */
  lemma {:induction false} UpToDateStays(s: State, acts: seq<Action>, id: nat)
    requires Settled(s) && UpToDate(s, id) && FetchOnTrack(s, s.clients[id]) && AllQuiet(acts, id)
    ensures var s' := Run(s, acts);
            && Settled(s') && s'.log == s.log && UpToDate(s', id) && FetchOnTrack(s', s'.clients[id])
            && s'.clients[id].installs == s.clients[id].installs
  {
    if acts != [] {
      UpToDateStays(s, acts[..|acts| - 1], id);
      var before := Run(s, acts[..|acts| - 1]);
      if Enabled(before, acts[|acts| - 1]) {
        hide Project;
        QuietKeepsSettled(before, acts[|acts| - 1]);
        StaysUpToDate(before, acts[|acts| - 1], id);
      }
    }
  }

  lemma StaysUpToDate(s: State, a: Action, id: nat)
    requires Settled(s) && Enabled(s, a) && Quiet(a, id)
    requires UpToDate(s, id) && FetchOnTrack(s, s.clients[id])
    ensures var s' := Step(s, a);
            && UpToDate(s', id) && FetchOnTrack(s', s'.clients[id])
            && s'.clients[id].installs == s.clients[id].installs
  {
    hide Project;
    QuietKeepsSettled(s, a);
    if a.WaitEnter? && a.id == id {
      assert s.servers[a.srv].mark.rev == Rev(s);
    }
  }

  /** No change is skipped forever. Let writes stop, and every watcher poll once, wherever the
      client is in its fetch by then. Once that fetch, if any, and one more poll have finished,
      label and contents are those of the database, and no later poll installs anything. */
  lemma NoChangeSkippedForever(c0: Contents, acts: seq<Action>, beats: seq<Action>, polls: seq<Action>,
                               later: seq<Action>, id: nat)
    requires RestoreFree(acts) && AllStill(beats) && AllPoll(Run(Start(c0), acts), beats)
    requires AllQuiet(polls, id) && AllQuiet(later, id)
    requires id in Run(Start(c0), acts + beats).clients
    requires Finished(Run(Start(c0), acts + beats + polls), id) >
             Finished(Run(Start(c0), acts + beats), id) + if IsIdle(Run(Start(c0), acts + beats), id) then 0 else 1
    ensures Run(Start(c0), acts + beats + polls).log == Run(Start(c0), acts).log
    ensures UpToDate(Run(Start(c0), acts + beats + polls), id)
    ensures var s1, s2 := Run(Start(c0), acts + beats + polls), Run(Start(c0), acts + beats + polls + later);
            UpToDate(s2, id) && s2.clients[id].installs == s1.clients[id].installs
  {
    var s := Run(Start(c0), acts + beats);
    RunAppend(Start(c0), acts, beats);
    RunAppend(Start(c0), acts + beats, polls);
    RunAppend(Start(c0), acts + beats + polls, later);
    RunsAreSound(c0, acts);
    RunsAreSound(c0, acts + beats);
    hide Run, Sound, Settled, AllPoll, Finished, IsIdle, Converging;
    assert Run(Start(c0), acts).log != [] by { SoundHasLog(Run(Start(c0), acts)); }
    PollsSettle(Run(Start(c0), acts), beats);
    ConvergesFromHere(s, id);
    QuietRunConverges(s, polls, id, Finished(s, id) + if IsIdle(s, id) then 0 else 1);
    ConvergedIsUpToDate(Run(s, polls), id, Finished(s, id) + if IsIdle(s, id) then 0 else 1);
    UpToDateStays(Run(s, polls), later, id);
  }

  lemma SoundHasLog(s: State)
    requires Sound(s)
    ensures s.log != []
  {
  }

  lemma ConvergesFromHere(s: State, id: nat)
    requires id in s.clients
    ensures Converging(s, s.clients[id], Finished(s, id) + if IsIdle(s, id) then 0 else 1)
  {
  }

  lemma ConvergedIsUpToDate(s: State, id: nat, n: nat)
    requires id in s.clients && Converging(s, s.clients[id], n) && Finished(s, id) > n
    ensures UpToDate(s, id) && FetchOnTrack(s, s.clients[id])
  {
  }

  // ---------------------------------------------------------------- restores

  /** Even with restores: the label a handler chooses never exceeds the revision it read
      from the database just before the data. */
  ghost predicate LabelsBounded(s: State) {
    forall id :: id in s.clients ==> LabelBounded(s.clients[id].fetch)
  }

  predicate LabelBounded(f: Fetch) {
    match f
    case Bounded(tag, dbRev) => tag <= dbRev
    case Fetched(snap, dbRev) => snap.tag <= dbRev
    case _ => true
  }

  lemma StepKeepsBounded(s: State, a: Action)
    requires LabelsBounded(s) && Enabled(s, a)
    ensures LabelsBounded(Step(s, a))
  {
    hide Present, Project;
    var s' := Step(s, a);
    forall id | id in s'.clients ensures LabelBounded(s'.clients[id].fetch) {
      if id in s.clients {
        assert LabelBounded(s.clients[id].fetch);
      }
    }
  }

  lemma {:induction false} LabelsBoundedAlways(c0: Contents, acts: seq<Action>)
    ensures LabelsBounded(Run(Start(c0), acts))
  {
    hide Step, LabelBounded, Enabled;
    if acts != [] {
      LabelsBoundedAlways(c0, acts[..|acts| - 1]);
      var before := Run(Start(c0), acts[..|acts| - 1]);
      if Enabled(before, acts[|acts| - 1]) {
        StepKeepsBounded(before, acts[|acts| - 1]);
      }
    }
  }

  /** Whatever the history: once every watcher has polled, only a label equal to the
      revision of the database can keep a finished poll from bringing its contents. */
  lemma EqualLabelDecides(s: State, acts: seq<Action>, id: nat)
    requires Settled(s) && IsIdle(s, id) && AllQuiet(acts, id)
    requires Finished(Run(s, acts), id) > Finished(s, id)
    ensures var s', c := Run(s, acts), s.clients[id];
            && s'.log == s.log && id in s'.clients
            && (UpToDate(s', id) <==> c.cur.tag != Rev(s) || c.cur.data == Present(s, c.prefixes))
            && s'.clients[id].installs == c.installs + if c.cur.tag == Rev(s) then 0 else 1
  {
    PollOutcome(s, acts, id);
  }

  /** The snapshot's data is the projection of one revision of the log before a restore. */
  ghost predicate Traced(log: seq<Contents>, ps: seq<string>, p: Snapshot) {
    p == NO_SNAPSHOT || (0 <= p.at < |log| && p.data == Project(log[p.at], ps))
  }

  ghost predicate ClientTraced(log: seq<Contents>, c: Client) {
    && Traced(log, c.prefixes, c.cur)
    && (c.file.Some? ==> Traced(log, c.prefixes, c.file.value))
    && (c.fetch.Fetched? ==> Traced(log, c.prefixes, c.fetch.snap))
  }

  /** The present log is a beginning of the one before the restore, from which all data came. */
  ghost predicate AllTraced(log: seq<Contents>, s: State) {
    s.log != [] && s.log <= log && forall id :: id in s.clients ==> ClientTraced(log, s.clients[id])
  }

  lemma StepKeepsTraced(log: seq<Contents>, s: State, a: Action)
    requires AllTraced(log, s) && Enabled(s, a) && !a.Write? && !a.Restore?
    ensures AllTraced(log, Step(s, a)) && Step(s, a).log == s.log
  {
    hide Project;
    var s' := Step(s, a);
    forall id | id in s'.clients ensures ClientTraced(log, s'.clients[id]) {
      if id in s.clients {
        assert ClientTraced(log, s.clients[id]);
      }
    }
  }

  lemma {:induction false} RunKeepsTraced(log: seq<Contents>, s: State, acts: seq<Action>)
    requires AllTraced(log, s) && AllStill(acts)
    ensures AllTraced(log, Run(s, acts)) && Run(s, acts).log == s.log
  {
    hide Step, AllTraced, Enabled;
    if acts != [] {
      RunKeepsTraced(log, s, acts[..|acts| - 1]);
      var before := Run(s, acts[..|acts| - 1]);
      if Enabled(before, acts[|acts| - 1]) {
        StepKeepsTraced(log, before, acts[|acts| - 1]);
      }
    }
  }

  /** The state some time after a restore to r without later writes. */
  ghost function Restored(c0: Contents, acts: seq<Action>, r: int, since: seq<Action>): State
    requires 0 <= r <= Rev(Run(Start(c0), acts))
  {
    Run(Step(Run(Start(c0), acts), Restore(r)), since)
  }

  lemma RestoredTraced(c0: Contents, acts: seq<Action>, r: int, since: seq<Action>)
    requires RestoreFree(acts) && AllStill(since) && 0 <= r <= Rev(Run(Start(c0), acts))
    ensures AllTraced(Run(Start(c0), acts).log, Restored(c0, acts, r, since))
    ensures Restored(c0, acts, r, since).log == Run(Start(c0), acts).log[..r + 1]
  {
    var s := Run(Start(c0), acts);
    RunsAreSound(c0, acts);
    hide Project, Run;
    forall id | id in s.clients ensures ClientTraced(s.log, s.clients[id]) {
      assert ClientSound(s, s.clients[id]);
    }
    RunKeepsTraced(s.log, Step(s, Restore(r)), since);
  }

  /** After a restore to r with no later writes, whatever went on at the time and whatever
      the watchers still held: once each has polled again, a poll begun then and finished ends
      with exactly r's contents labelled r, if and only if the client's label was not r or the
      revision its data was read at looked the same to it as r. A client whose label is not r
      installs exactly one snapshot for that. */
  lemma RestoresAreSurvived(c0: Contents, acts: seq<Action>, r: int, since: seq<Action>, polls: seq<Action>, id: nat)
    requires RestoreFree(acts) && AllStill(since) && 0 <= r <= Rev(Run(Start(c0), acts))
    requires AllPoll(Step(Run(Start(c0), acts), Restore(r)), since) && IsIdle(Restored(c0, acts, r, since), id)
    requires AllQuiet(polls, id)
    requires Finished(Run(Restored(c0, acts, r, since), polls), id) > Finished(Restored(c0, acts, r, since), id)
    ensures var log, s, s' := Run(Start(c0), acts).log, Restored(c0, acts, r, since),
                              Run(Restored(c0, acts, r, since), polls);
            var c := s.clients[id];
            && s'.log == log[..r + 1]
            && (UpToDate(s', id) <==>
                c.cur.tag != r ||
                (0 <= c.cur.at < |log| && Project(log[c.cur.at], c.prefixes) == Project(log[r], c.prefixes)))
            && (c.cur.tag != r ==> s'.clients[id].installs == c.installs + 1)
  {
    var s := Restored(c0, acts, r, since);
    RestoredTraced(c0, acts, r, since);
    assert Settled(s) by {
      RunsAreSound(c0, acts);
      PollsSettle(Step(Run(Start(c0), acts), Restore(r)), since);
    }
    hide Project, Restored, Settled;
    assert ClientTraced(Run(Start(c0), acts).log, s.clients[id]);
    EqualLabelDecides(s, polls, id);
  }

  /** So a client whose label told exactly when its data was read always survives. */
  lemma ExactLabelSurvives(c0: Contents, acts: seq<Action>, r: int, since: seq<Action>, polls: seq<Action>, id: nat)
    requires RestoreFree(acts) && AllStill(since) && 0 <= r <= Rev(Run(Start(c0), acts))
    requires AllPoll(Step(Run(Start(c0), acts), Restore(r)), since) && IsIdle(Restored(c0, acts, r, since), id)
    requires AllQuiet(polls, id)
    requires Finished(Run(Restored(c0, acts, r, since), polls), id) > Finished(Restored(c0, acts, r, since), id)
    requires var p := Restored(c0, acts, r, since).clients[id].cur; p.tag == p.at
    ensures UpToDate(Run(Restored(c0, acts, r, since), polls), id)
  {
    RestoresAreSurvived(c0, acts, r, since, polls, id);
  }

  lemma RunStep(s: State, acts: seq<Action>, a: Action)
    requires Enabled(Run(s, acts), a)
    ensures Run(s, acts + [a]) == Step(Run(s, acts), a)
  {
    assert (acts + [a])[..|acts|] == acts;
  }

  const OLD: Contents := map["k" := Item("old", Raw)]
  const NEW: Contents := map["k" := Item("new", Raw)]

  /** A write between the two reads of a direct poller, then a restore. */
  const UNLUCKY := [BootClient(0, []), DirectStart(0), DirectRead(0), Write(NEW), ReadData(0), Install(0, false), Restore(0)]

  /** The state of UNLUCKY's client after three, five and six actions. */
  ghost function Poller(log: seq<Contents>, cur: Snapshot, f: Fetch, n: nat): State {
    State(log, map[], map[0 := Client([], cur, f, n, n, None)])
  }

  lemma UnluckyReads()
    ensures Run(Start(OLD), UNLUCKY[..3]) == Poller([OLD], NO_SNAPSHOT, Bounded(0, 0), 0)
  {
    hide Project, Present;
    var s0 := Start(OLD);
    assert UNLUCKY[..0] == [] && UNLUCKY[..1] == [UNLUCKY[0]];
    assert UNLUCKY[..2] == UNLUCKY[..1] + [UNLUCKY[1]] && UNLUCKY[..3] == UNLUCKY[..2] + [UNLUCKY[2]];
    RunStep(s0, [], UNLUCKY[0]);
    assert Run(s0, UNLUCKY[..1]) == Poller([OLD], NO_SNAPSHOT, Idle, 0);
    RunStep(s0, UNLUCKY[..1], UNLUCKY[1]);
    assert Run(s0, UNLUCKY[..2]) == Poller([OLD], NO_SNAPSHOT, Polling(false), 0);
    RunStep(s0, UNLUCKY[..2], UNLUCKY[2]);
  }

  lemma UnluckyFetches()
    ensures var got := Snapshot(0, Project(NEW, []), 1);
            Run(Start(OLD), UNLUCKY[..5]) == Poller([OLD, NEW], NO_SNAPSHOT, Fetched(got, 0), 0)
  {
    hide Project;
    var s0 := Start(OLD);
    UnluckyReads();
    assert UNLUCKY[..4] == UNLUCKY[..3] + [UNLUCKY[3]] && UNLUCKY[..5] == UNLUCKY[..4] + [UNLUCKY[4]];
    RunStep(s0, UNLUCKY[..3], UNLUCKY[3]);
    assert Run(s0, UNLUCKY[..4]) == Poller([OLD, NEW], NO_SNAPSHOT, Bounded(0, 0), 0);
    RunStep(s0, UNLUCKY[..4], UNLUCKY[4]);
  }

  lemma UnluckyRun()
    ensures Run(Start(OLD), UNLUCKY) == Poller([OLD], Snapshot(0, Project(NEW, []), 1), Idle, 1)
  {
    hide Project, Present;
    var s0 := Start(OLD);
    UnluckyFetches();
    assert UNLUCKY[..6] == UNLUCKY[..5] + [UNLUCKY[5]] && UNLUCKY == UNLUCKY[..6] + [UNLUCKY[6]];
    RunStep(s0, UNLUCKY[..5], UNLUCKY[5]);
    assert Run(s0, UNLUCKY[..6]) == Poller([OLD, NEW], Snapshot(0, Project(NEW, []), 1), Idle, 1);
    RunStep(s0, UNLUCKY[..6], UNLUCKY[6]);
    assert [OLD, NEW][..1] == [OLD];
  }

  /** The exception is real: a client that labelled newer data low keeps it forever after a
      restore to exactly that label. */
  lemma StaleAfterRestore(polls: seq<Action>)
    requires AllQuiet(polls, 0)
    ensures var s := Run(Run(Start(OLD), UNLUCKY), polls);
            && 0 in s.clients && s.clients[0].cur.tag == Rev(s) == 0
            && s.clients[0].cur.data == NEW && Present(s, s.clients[0].prefixes) == OLD
  {
    UnluckyRun();
    assert forall c: Contents :: Project(c, []) == c;
    PollOutcome(Run(Start(OLD), UNLUCKY), polls, 0);
  }

  const OTHER: Contents := map["k" := Item("other", Raw)]

  /** One fetch of an honest direct poller that nothing interrupts. */
  const FETCH := [DirectStart(0), DirectRead(0), ReadData(0), Install(0, false)]

  lemma FetchFirstHalf(log: seq<Contents>)
    requires log != []
    ensures var s0, rev := Poller(log, NO_SNAPSHOT, Idle, 0), |log| - 1;
            Run(s0, FETCH[..2]) == Poller(log, NO_SNAPSHOT, Bounded(rev, rev), 0)
  {
    hide Project, Present;
    var s0, first := Poller(log, NO_SNAPSHOT, Idle, 0), [DirectStart(0)];
    assert [] + first == first && FETCH[..2] == first + [DirectRead(0)];
    RunStep(s0, [], DirectStart(0));
    assert Run(s0, first) == Poller(log, NO_SNAPSHOT, Polling(false), 0);
    RunStep(s0, first, DirectRead(0));
  }

  lemma FetchSecondHalf(log: seq<Contents>)
    requires log != []
    ensures var rev := |log| - 1;
            Run(Poller(log, NO_SNAPSHOT, Bounded(rev, rev), 0), FETCH[2..]) ==
            Poller(log, Snapshot(rev, Project(log[rev], []), rev), Idle, 1)
  {
    hide Project;
    var rev, read := |log| - 1, [ReadData(0)];
    var s0 := Poller(log, NO_SNAPSHOT, Bounded(rev, rev), 0);
    assert [] + read == read && FETCH[2..] == read + [Install(0, false)];
    RunStep(s0, [], ReadData(0));
    assert Run(s0, read) == Poller(log, NO_SNAPSHOT, Fetched(Snapshot(rev, Project(log[rev], []), rev), rev), 0);
    RunStep(s0, read, Install(0, false));
  }

  lemma FetchRun(log: seq<Contents>)
    requires log != []
    ensures Run(Poller(log, NO_SNAPSHOT, Idle, 0), FETCH) ==
            Poller(log, Snapshot(|log| - 1, Project(log[|log| - 1], []), |log| - 1), Idle, 1)
  {
    hide Run, Poller, Project;
    FetchFirstHalf(log);
    FetchSecondHalf(log);
    assert FETCH == FETCH[..2] + FETCH[2..];
    RunAppend(Poller(log, NO_SNAPSHOT, Idle, 0), FETCH[..2], FETCH[2..]);
  }

  /** A revision is written, read by a client and lost to a restore; then another write
      takes its number. */
  const REWRITTEN := [BootClient(0, []), Write(NEW)] + FETCH + [Restore(0), Write(OTHER)]

  lemma RewrittenRun()
    ensures Run(Start(OLD), REWRITTEN) == Poller([OLD, OTHER], Snapshot(1, Project(NEW, []), 1), Idle, 1)
  {
    hide Project;
    var s0, got := Start(OLD), Snapshot(1, Project(NEW, []), 1);
    var boot, write := [BootClient(0, [])], [BootClient(0, []), Write(NEW)];
    RunStep(s0, [], BootClient(0, []));
    assert [] + boot == boot;
    assert Run(s0, boot) == Poller([OLD], NO_SNAPSHOT, Idle, 0);
    RunStep(s0, boot, Write(NEW));
    assert boot + [Write(NEW)] == write;
    assert Run(s0, write) == Poller([OLD, NEW], NO_SNAPSHOT, Idle, 0);
    RunAppend(s0, write, FETCH);
    FetchRun([OLD, NEW]);
    RunStep(s0, write + FETCH, Restore(0));
    assert [OLD, NEW][..1] == [OLD];
    assert Run(s0, write + FETCH + [Restore(0)]) == Poller([OLD], got, Idle, 1);
    RunStep(s0, write + FETCH + [Restore(0)], Write(OTHER));
    assert REWRITTEN == write + FETCH + [Restore(0)] + [Write(OTHER)];
  }

  /** The second exception: an exactly labelled client keeps the lost contents forever when
      writes after the restore bring the revision back up to its label. */
  lemma StaleAfterRewrite(polls: seq<Action>)
    requires AllQuiet(polls, 0)
    ensures var before, s := Run(Start(OLD), REWRITTEN), Run(Run(Start(OLD), REWRITTEN), polls);
            && 0 in before.clients && before.clients[0].cur.tag == before.clients[0].cur.at == 1
            && 0 in s.clients && s.clients[0].cur.tag == Rev(s) == 1
            && s.clients[0].cur.data == NEW && Present(s, s.clients[0].prefixes) == OTHER
  {
    RewrittenRun();
    assert forall c: Contents :: Project(c, []) == c;
    PollOutcome(Run(Start(OLD), REWRITTEN), polls, 0);
  }
}
