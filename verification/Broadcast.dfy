/** The broadcast of watermark changes in server/revision_watcher.go: first as steps on
    values, with any number of waiters; then as the object with its channels. */
module Broadcast {

  /** What the watcher knows. gen counts the channels closed so far, so the waiters of
      the current channel are those that entered at this gen. */
  datatype Mark = Mark(rev: int, ready: bool, gen: nat)

  /** A request blocked in Wait: its baseline and the channel it selects on. */
  datatype Waiter = Waiter(since: int, gen: nat)

  datatype Hub = Hub(mark: Mark, stopped: bool, waiters: map<nat, Waiter>)

  const INITIAL := Mark(-1, false, 0)

  /** set: a different revision closes the current channel and starts the next. */
  function SetMark(m: Mark, rev: int): Mark {
    Mark(rev, true, if m.rev == rev then m.gen else m.gen + 1)
  }

  /** The test made under the lock before blocking. */
  predicate ReturnsAtOnce(m: Mark, since: int) { since < 0 || m.rev != since }

  datatype Event =
    | SetTo(rev: int)
    | Stop
    | Enter(id: nat, since: int)
    | Woken(id: nat)
    | Released(id: nat)
    | TimedOut(id: nat)

  /** Whether the select of a blocked waiter can take a branch of its own accord. */
  predicate ChannelClosed(h: Hub, w: Waiter) { w.gen < h.mark.gen }

  predicate Can(h: Hub, e: Event) {
    match e
    case SetTo(_) => true
    case Stop => true
    case Enter(id, _) => id !in h.waiters
    case Woken(id) => id in h.waiters && ChannelClosed(h, h.waiters[id])
    case Released(id) => id in h.waiters && h.stopped
    case TimedOut(id) => id in h.waiters
  }

  function Do(h: Hub, e: Event): Hub
    requires Can(h, e)
  {
    match e
    case SetTo(rev) => h.(mark := SetMark(h.mark, rev))
    case Stop => h.(stopped := true)
    case Enter(id, since) =>
      if ReturnsAtOnce(h.mark, since) then h else h.(waiters := h.waiters[id := Waiter(since, h.mark.gen)])
    case Woken(id) => h.(waiters := h.waiters - {id})
    case Released(id) => h.(waiters := h.waiters - {id})
    case TimedOut(id) => h.(waiters := h.waiters - {id})
  }

  function DoAll(h: Hub, es: seq<Event>): Hub {
    if es == [] then h
    else
      var before := DoAll(h, es[..|es| - 1]);
      if Can(before, es[|es| - 1]) then Do(before, es[|es| - 1]) else before
  }

  /** A waiter whose channel is still open waits for the present watermark to change. */
  ghost predicate NothingMissed(h: Hub) {
    forall id :: id in h.waiters ==>
      var w := h.waiters[id];
      w.gen <= h.mark.gen && 0 <= w.since && (!ChannelClosed(h, w) ==> w.since == h.mark.rev)
  }

  lemma {:induction false} RunsMissNothing(es: seq<Event>)
    ensures NothingMissed(DoAll(Hub(INITIAL, false, map[]), es))
  {
    if es != [] {
      RunsMissNothing(es[..|es| - 1]);
    }
  }

  /** No lost wakeup: after any run, a waiter none of whose channels is closed has seen the
      present watermark; and once stopped, every waiter can leave. */
  lemma NoLostWakeup(es: seq<Event>, id: nat)
    requires id in DoAll(Hub(INITIAL, false, map[]), es).waiters
    ensures var h := DoAll(Hub(INITIAL, false, map[]), es);
            && (!Can(h, Woken(id)) && !Can(h, Released(id)) ==> h.waiters[id].since == h.mark.rev)
            && (h.stopped ==> Can(h, Released(id)))
  {
    RunsMissNothing(es);
  }

  /** Stopping is for good, so Close releases everyone, present and future. */
  lemma {:induction false} StoppedForGood(h: Hub, es: seq<Event>)
    requires h.stopped
    ensures DoAll(h, es).stopped
    ensures forall id :: id in DoAll(h, es).waiters ==> Can(DoAll(h, es), Released(id))
  {
    if es != [] {
      StoppedForGood(h, es[..|es| - 1]);
    }
  }

  /** A change that happens while a waiter is blocked always wakes it, even if a later
      restore brings the old watermark back. */
  lemma {:induction false} ChangeStaysVisible(h: Hub, es: seq<Event>, id: nat)
    requires id in h.waiters && ChannelClosed(h, h.waiters[id])
    ensures id in DoAll(h, es).waiters && DoAll(h, es).waiters[id] == h.waiters[id] ==>
            Can(DoAll(h, es), Woken(id))
  {
    GenGrows(h, es);
  }

  lemma {:induction false} GenGrows(h: Hub, es: seq<Event>)
    ensures DoAll(h, es).mark.gen >= h.mark.gen
  {
    if es != [] {
      GenGrows(h, es[..|es| - 1]);
    }
  }
}

/** The object: a mutex guards its fields, so each method is one atomic step. */
module RevisionWatchers {
  import opened Broadcast

  /** A channel that is only ever closed; closing it twice would panic. */
  class Channel {
    var closed: bool

    constructor ()
      ensures !closed
    {
      closed := false;
    }

    method Close()
      requires !closed
      modifies this
      ensures closed
    {
      closed := true;
    }
  }

  datatype WaitStart = Answer(rev: int) | Block(ch: Channel)

  datatype Cause = ChannelFired | StopFired | ContextDone

  /** The outcome of one heartbeat query; done says the context had ended. */
  datatype Poll = Read(rev: int) | Failed(err: string, done: bool)

  /** What happens next while the poll loop runs: one of its heartbeats comes back, or
      another goroutine does something. */
  datatype Turn = Heartbeat(poll: Poll) | Elsewhere(e: Event)

  class RevisionWatcher {
    var rev: int
    var changed: Channel
    var ready: bool
    var dbErr: string
    var closed: bool
    const stop: Channel

    /** All channels that have ever been current, and the requests blocked in Wait. */
    ghost var channels: seq<Channel>
    ghost var waiting: map<nat, Waiter>

    ghost predicate Valid()
      reads this, channels, stop
    {
      && channels != [] && changed == channels[|channels| - 1]
      && !changed.closed && stop !in channels
      && (forall i :: 0 <= i < |channels| - 1 ==> channels[i].closed && channels[i] != changed)
      && closed == stop.closed
      && NothingMissed(State())
    }

    ghost function State(): Hub
      requires channels != []
      reads this
    {
      Hub(Mark(rev, ready, |channels| - 1), closed, waiting)
    }

    constructor ()
      ensures Valid() && fresh(changed) && fresh(stop)
      ensures State() == Hub(INITIAL, false, map[])
    {
      rev, ready, dbErr, closed := -1, false, "", false;
      var ch := new Channel();
      changed := ch;
      stop := new Channel();
      channels := [ch];
      waiting := map[];
    }

    /** Wait up to its select: the revision and the channel are read under one lock. */
    method Enter(ghost id: nat, since: int) returns (r: WaitStart)
      requires Valid() && Can(State(), Broadcast.Enter(id, since))
      modifies this`waiting
      ensures Valid() && State() == Do(old(State()), Broadcast.Enter(id, since))
      ensures r == if since < 0 || rev != since then Answer(rev) else Block(changed)
      ensures r.Block? ==> !r.ch.closed && channels[waiting[id].gen] == r.ch && since == rev
    {
      if since < 0 || rev != since {
        return Answer(rev);
      }
      waiting := waiting[id := Waiter(since, |channels| - 1)];
      r := Block(changed);
    }

    /** The select of Wait takes a ready branch; only a closed channel reports a change. */
    method Resume(ghost id: nat, ch: Channel, cause: Cause) returns (r: int, moved: bool)
      requires Valid() && id in waiting && waiting[id].gen < |channels| && channels[waiting[id].gen] == ch
      requires cause == ChannelFired ==> ch.closed
      requires cause == StopFired ==> stop.closed
      modifies this`waiting
      ensures Valid() && r == rev
      ensures moved <==> cause == ChannelFired
      ensures moved ==> Can(old(State()), Woken(id)) && State() == Do(old(State()), Woken(id))
      ensures cause == StopFired ==> Can(old(State()), Released(id)) && State() == Do(old(State()), Released(id))
      ensures cause == ContextDone ==> State() == Do(old(State()), TimedOut(id))
    {
      r, moved := rev, cause == ChannelFired;
      waiting := waiting - {id};
    }

    /** Records a watermark; if it moved, every blocked request's channel is now closed. */
    method Set(r: int)
      requires Valid()
      modifies this, changed
      ensures Valid() && State() == Do(old(State()), SetTo(r)) && dbErr == ""
      ensures rev == r && ready
      ensures if old(rev) == r then changed == old(changed) else fresh(changed) && old(changed).closed
      ensures rev != old(rev) ==> forall id :: id in waiting ==> ChannelClosed(State(), waiting[id])
      ensures stop.closed == old(stop.closed) && channels[..|old(channels)|] == old(channels)
    {
      ready, dbErr := true, "";
      if rev == r {
        return;
      }
      rev := r;
      changed.Close();
      changed := new Channel();
      channels := channels + [changed];
    }

    method SetErr(err: string)
      requires Valid()
      modifies this`dbErr
      ensures Valid() && State() == old(State()) && dbErr == err
    {
      dbErr := err;
    }

    method Health() returns (isReady: bool, r: int, err: string)
      ensures isReady == ready && r == rev && err == dbErr
    {
      isReady, r, err := ready, rev, dbErr;
    }

    /** Releases every waiter; a second call does nothing. */
    method Close()
      requires Valid()
      modifies this`closed, stop
      ensures Valid() && State() == Do(old(State()), Stop)
      ensures stop.closed
    {
      if closed {
        return;
      }
      closed := true;
      stop.Close();
    }

    /** What the other goroutines do between two heartbeats: requests block and leave. */
    ghost method Elsewhere(e: Event)
      requires Valid() && !e.SetTo? && !e.Stop?
      modifies this`waiting
      ensures Valid() && State() == Apply(old(State()), e)
    {
      if Can(State(), e) {
        waiting := Do(State(), e).waiters;
      }
    }

    /** The poll loop, with requests and Close of other goroutines interleaved between its
        heartbeats in any order; it closes the watcher on return. A failed heartbeat never
        moves the watermark. */
    method Run(turns: seq<Turn>)
      requires Valid()
      requires forall i :: 0 <= i < |turns| && turns[i].Elsewhere? ==> !turns[i].e.SetTo?
      modifies this, changed, stop
      ensures Valid() && stop.closed
      ensures State() == DoAll(old(State()), Events(turns) + [Stop])
      ensures dbErr == ErrorAfter(old(dbErr), turns)
    {
      ghost var h := State();
      assert Events(turns[..0]) == [] && DoAll(h, []) == h;
      hide Can, Do, DoAll, NothingMissed;
      for i := 0 to |turns|
        invariant Valid()
        invariant changed == old(changed) || fresh(changed)
        invariant State() == DoAll(h, Events(turns[..i]))
        invariant dbErr == ErrorAfter(old(dbErr), turns[..i])
      {
        assert turns[..i + 1][..i] == turns[..i];
        ghost var before := Events(turns[..i]);
        match turns[i] {
          case Heartbeat(Read(r)) =>
            DoAllSnoc(h, before, SetTo(r));
            Set(r);
          case Heartbeat(Failed(err, done)) =>
            assert Events(turns[..i + 1]) == before + [] == before;
            if !done {
              SetErr(err);
            }
          case Elsewhere(e) =>
            DoAllSnoc(h, before, e);
            if e.Stop? {
              Close();
            } else {
              Elsewhere(e);
            }
        }
      }
      assert turns[..|turns|] == turns;
      DoAllSnoc(h, Events(turns), Stop);
      Close();
    }
  }

  /** What the turns of a poll loop mean to the waiters, in order. */
  ghost function Events(turns: seq<Turn>): seq<Event> {
    if turns == [] then []
    else
      Events(turns[..|turns| - 1]) +
      match turns[|turns| - 1]
      case Heartbeat(Read(rev)) => [SetTo(rev)]
      case Heartbeat(Failed(_, _)) => []
      case Elsewhere(e) => [e]
  }

  /** The error shown is that of the last heartbeat, unless the context had ended by then. */
  ghost function ErrorAfter(err: string, turns: seq<Turn>): string {
    if turns == [] then err
    else
      match turns[|turns| - 1]
      case Heartbeat(Read(_)) => ""
      case Heartbeat(Failed(e, false)) => e
      case _ => ErrorAfter(err, turns[..|turns| - 1])
  }

  ghost function Apply(h: Hub, e: Event): Hub { if Can(h, e) then Do(h, e) else h }

  lemma DoAllSnoc(h: Hub, es: seq<Event>, e: Event)
    ensures DoAll(h, es + [e]) == Apply(DoAll(h, es), e)
  {
    assert (es + [e])[..|es|] == es;
  }
}
