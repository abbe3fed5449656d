/** The client of client/client.go: installing snapshots, notifying watchers, and cold
    start. applyMu makes Apply and Watch atomic towards each other, so each is one step. */
module Client {
  import opened Basics
  import opened Text
  import opened Order
  import opened Views
  import opened Fallback

  /** filterPrefix: the keys that carry the prefix, in order. */
  method FilterPrefix(keys: seq<string>, prefix: string) returns (out: seq<string>)
    requires StrictlySorted(keys)
    ensures StrictlySorted(out)
    ensures forall k :: k in out <==> k in keys && HasPrefix(k, prefix)
  {
    if prefix == "" {
      return keys;
    }
    out := [];
    for i := 0 to |keys|
      invariant StrictlySorted(out)
      invariant forall k :: k in out <==> k in keys[..i] && HasPrefix(k, prefix)
    {
      assert keys[..i + 1] == keys[..i] + [keys[i]];
      if HasPrefix(keys[i], prefix) {
        forall j | 0 <= j < |out| ensures Less(out[j], keys[i]) {
          assert out[j] in keys[..i];
        }
        out := out + [keys[i]];
      }
    }
    assert keys[..|keys|] == keys;
  }

  /** Something under the prefix was added, removed or modified. */
  ghost predicate ChangedUnder(old_: View, new_: View, prefix: string) {
    exists k: string :: HasPrefix(k, prefix) && Changed(old_, new_, k)
  }

  /** Both views hold the same keys, values and formats under the prefix. */
  ghost predicate AgreeUnder(x: View, y: View, prefix: string) {
    !ChangedUnder(x, y, prefix)
  }

  /** A call of the OnChange option: a configured prefix and the keys changed under it. */
  datatype Notice = Notice(prefix: string, keys: seq<string>)

  ghost predicate ExactNotice(n: Notice, old_: View, new_: View) {
    && StrictlySorted(n.keys) && n.keys != []
    && forall k: string :: k in n.keys <==> HasPrefix(k, n.prefix) && Changed(old_, new_, k)
  }

  function PrefixesOf(ns: seq<Notice>): seq<string> {
    seq(|ns|, i requires 0 <= i < |ns| => ns[i].prefix)
  }

  /** The prefixes under which something changed, in order. */
  ghost function ChangedAmong(ps: seq<string>, old_: View, new_: View): seq<string> {
    if ps == [] then []
    else
      ChangedAmong(ps[..|ps| - 1], old_, new_) +
      if ChangedUnder(old_, new_, ps[|ps| - 1]) then [ps[|ps| - 1]] else []
  }

  /** What the first fetch of a new client came to. */
  datatype FirstFetch = Arrived(s: Snapshot) | Unchanged | Broken

  class Client {
    const disk: Disk
    const fallbackPath: string // empty for none
    const prefixes: seq<string>
    const hasOnChange: bool

    var snap: View
    var seeded: bool

    /** The prefixes of the registered watchers; for each, the views its callback was given;
        and the calls of OnChange. */
    var watched: seq<string>
    var delivered: seq<seq<View>>
    var notices: seq<Notice>

    ghost predicate Valid()
      reads this
    {
      WellFormed(snap) && |delivered| == |watched|
    }

    /** Every watcher was last given a view that agrees with v under its prefix. */
    ghost predicate MirroredTo(v: View)
      reads this
    {
      Valid() && forall w :: 0 <= w < |watched| ==>
        delivered[w] != [] && AgreeUnder(delivered[w][|delivered[w]| - 1], v, watched[w])
    }

    /** Every watcher's last view agrees with the current one under its prefix. */
    ghost predicate Mirrored()
      reads this
    {
      MirroredTo(snap)
    }

    /** The fallback file as far as the client's own writes determine it. */
    ghost function FileState(): Mirror
      requires Valid()
      reads this, disk
    {
      Mirror.Mirror(snap.byKey, seeded, Stored(disk.files, fallbackPath))
    }

    constructor (disk: Disk, fallbackPath: string, prefixes: seq<string>, hasOnChange: bool)
      ensures Mirrored() && snap == EMPTY_VIEW && watched == [] && notices == [] && !seeded
      ensures this.disk == disk && this.fallbackPath == fallbackPath
      ensures this.prefixes == prefixes && this.hasOnChange == hasOnChange
    {
      this.disk, this.fallbackPath, this.prefixes, this.hasOnChange := disk, fallbackPath, prefixes, hasOnChange;
      snap, seeded := EMPTY_VIEW, false;
      watched, delivered, notices := [], [], [];
    }

    /** Registers a callback and hands it the current view at once. */
    method Watch(prefix: string)
      requires Mirrored()
      modifies this`watched, this`delivered
      ensures Mirrored()
      ensures watched == old(watched) + [prefix] && delivered == old(delivered) + [[snap]]
    {
      watched := watched + [prefix];
      delivered := delivered + [[snap]];
    }

    /** Calls the watchers with changes under their prefix, each exactly once, then OnChange. */
    method Notify(prev: View, changed: seq<string>)
      requires Valid() && StrictlySorted(changed)
      requires forall k :: k in changed <==> Changed(prev, snap, k)
      modifies this`delivered, this`notices
      ensures Valid()
      ensures forall w :: 0 <= w < |watched| ==>
                delivered[w] == old(delivered[w]) + if ChangedUnder(prev, snap, watched[w]) then [snap] else []
      ensures old(notices) <= notices
      ensures forall i :: |old(notices)| <= i < |notices| ==> ExactNotice(notices[i], prev, snap)
      ensures PrefixesOf(notices[|old(notices)|..]) ==
              if hasOnChange then ChangedAmong(if prefixes == [] then [""] else prefixes, prev, snap) else []
    {
      for w := 0 to |watched|
        modifies this`delivered
        invariant |delivered| == |watched|
        invariant forall v :: 0 <= v < w ==>
                    delivered[v] == old(delivered[v]) + if ChangedUnder(prev, snap, watched[v]) then [snap] else []
        invariant forall v :: w <= v < |watched| ==> delivered[v] == old(delivered[v])
      {
        var sub := FilterPrefix(changed, watched[w]);
        NonEmptyIfChanged(sub, prev, snap, watched[w]);
        if |sub| == 0 {
          assert old(delivered[w]) + [] == old(delivered[w]);
          continue;
        }
        delivered := delivered[w := delivered[w] + [snap]];
      }
      if !hasOnChange {
        return;
      }
      var ps := if |prefixes| == 0 then [""] else prefixes;
      for j := 0 to |ps|
        modifies this`notices
        invariant old(notices) <= notices
        invariant forall i :: |old(notices)| <= i < |notices| ==> ExactNotice(notices[i], prev, snap)
        invariant PrefixesOf(notices[|old(notices)|..]) == ChangedAmong(ps[..j], prev, snap)
      {
        assert ps[..j + 1][..j] == ps[..j];
        var sub := FilterPrefix(changed, ps[j]);
        NonEmptyIfChanged(sub, prev, snap, ps[j]);
        if |sub| == 0 {
          continue;
        }
        notices := notices + [Notice(ps[j], sub)];
      }
      assert ps[..|ps|] == ps;
    }

    /** Writes the fallback file if entries changed or no write has succeeded yet; an empty
        list of changes must not keep stale entries in the file. */
    method Persist(changed: bool, fate: Fate) returns (alive: bool)
      requires Valid()
      modifies this`seeded, disk
      ensures !alive ==> fate.CrashesAt?
      ensures fallbackPath == "" ==> disk.files == old(disk.files) && seeded == old(seeded)
      ensures fallbackPath != "" ==>
                var attempt := changed || !old(seeded);
                && seeded == (old(seeded) || (attempt && Succeeds(fate)))
                && Stored(disk.files, fallbackPath) ==
                   if attempt && Replaces(fate) then Some(snap.byKey) else old(Stored(disk.files, fallbackPath))
    {
      if fallbackPath != "" && (changed || !seeded) {
        var outcome := disk.WriteFallback(fallbackPath, snap, fate);
        StoredAfterWrite(disk.files, fallbackPath, snap);
        if outcome == Crashed {
          return false;
        }
        if outcome == Written {
          seeded := true;
        }
      }
      alive := true;
    }

    /** What remains of Apply once the file has been dealt with. */
    method Announce(prev: View, changed: seq<string>, notify: bool)
      requires MirroredTo(prev) && WellFormed(prev) && StrictlySorted(changed) && (!notify ==> watched == [])
      requires forall k :: k in changed <==> Changed(prev, snap, k)
      modifies this`delivered, this`notices
      ensures Mirrored()
      ensures forall w :: 0 <= w < |watched| ==>
                delivered[w] == old(delivered[w]) + if ChangedUnder(prev, snap, watched[w]) then [snap] else []
      ensures old(notices) <= notices
      ensures forall i :: |old(notices)| <= i < |notices| ==> ExactNotice(notices[i], prev, snap)
      ensures PrefixesOf(notices[|old(notices)|..]) ==
              if notify && hasOnChange && prev.byKey != snap.byKey
              then ChangedAmong(if prefixes == [] then [""] else prefixes, prev, snap) else []
    {
      DiffIsEmpty(prev, snap, changed);
      hide ExactNotice, ChangedUnder, ChangedAmong;
      if |changed| == 0 {
        SilentMove(prev, snap);
        return;
      }
      ghost var before := delivered;
      if notify {
        Notify(prev, changed);
      }
      forall w | 0 <= w < |watched|
        ensures delivered[w] != [] && AgreeUnder(delivered[w][|delivered[w]| - 1], snap, watched[w])
      {
        StillAgrees(before[w][|before[w]| - 1], prev, snap, watched[w]);
      }
    }

    /** Installs a snapshot, writes the fallback file if needed, and notifies if something
        changed. It never compares revisions. fate says how the file write goes. */
    method Apply(s: Snapshot, notify: bool, fate: Fate) returns (alive: bool)
      requires Mirrored()
      requires !notify ==> watched == []
      modifies this`snap, this`seeded, this`delivered, this`notices, disk
      ensures Valid() && IsViewOf(snap, s)
      ensures !alive ==> fate.CrashesAt?
      ensures alive ==> Mirrored()
      ensures alive ==> forall w :: 0 <= w < |watched| ==>
                delivered[w] == old(delivered[w]) + if ChangedUnder(old(snap), snap, watched[w]) then [snap] else []
      ensures old(notices) <= notices && (!alive ==> notices == old(notices) && delivered == old(delivered))
      ensures forall i :: |old(notices)| <= i < |notices| ==> ExactNotice(notices[i], old(snap), snap)
      ensures alive ==>
                PrefixesOf(notices[|old(notices)|..]) ==
                if notify && hasOnChange && old(snap).byKey != snap.byKey
                then ChangedAmong(if prefixes == [] then [""] else prefixes, old(snap), snap) else []
      ensures fallbackPath != "" ==> FileState() == ApplyOne(old(FileState()), snap.byKey, fate)
      ensures fallbackPath == "" ==> disk.files == old(disk.files)
    {
      hide ExactNotice, ChangedUnder, ChangedAmong, Stored;
      var next := NewView(s);
      var prev := snap;
      snap := next;
      var changed := Diff(prev, next);
      DiffIsEmpty(prev, next, changed);

      alive := Persist(|changed| > 0, fate);
      if !alive {
        return;
      }
      Announce(prev, changed, notify);
    }

    /** The current snapshot is taken from the file, if it is there and complete. */
    method LoadFallback() returns (ok: bool)
      requires Mirrored() && watched == []
      modifies this`snap
      ensures Mirrored() && (!ok ==> snap == old(snap))
      ensures ok <==> fallbackPath != "" && Read(disk.files, fallbackPath).Some? && disk.files[fallbackPath].Whole?
      ensures ok ==> IsViewOf(snap, disk.files[fallbackPath].snapshot)
    {
      if fallbackPath == "" {
        return false;
      }
      var v := disk.ReadFallback(fallbackPath);
      if v.None? {
        return false;
      }
      snap := v.value;
      ok := true;
    }

    /** New around its first fetch: if that brings no snapshot, the file, and if there is
        none, an empty view where that is allowed. Nobody is called back. */
    method Start(first: FirstFetch, degrade: bool, fate: Fate) returns (ok: bool)
      requires Mirrored() && watched == [] && snap == EMPTY_VIEW && !fate.CrashesAt?
      modifies this, disk
      ensures Mirrored() && watched == [] && notices == old(notices)
      ensures ok <==> (first.Arrived? && first.s.revision >= 0) || degrade ||
                      (fallbackPath != "" && Read(disk.files, fallbackPath).Some? && disk.files[fallbackPath].Whole?)
      ensures first.Arrived? && first.s.revision >= 0 ==> IsViewOf(snap, first.s)
      ensures !(first.Arrived? && first.s.revision >= 0) && fallbackPath != "" ==>
                match Read(disk.files, fallbackPath)
                case Some(Whole(s)) => IsViewOf(snap, s)
                case _ => if first.Arrived? then IsViewOf(snap, first.s) else snap == EMPTY_VIEW
      ensures !first.Arrived? ==> disk.files == old(disk.files)
    {
      if first.Arrived? {
        var _ := Apply(first.s, false, fate);
        if snap.revision >= 0 {
          return true;
        }
      }
      ok := LoadFallback();
      if !ok && degrade {
        ok := true;
      }
    }
  }

  /** The entries in the fallback file, if it holds a complete snapshot. */
  ghost function Stored(files: map<string, File>, path: string): Option<Entries> {
    match Read(files, path)
    case Some(Whole(s)) => Some(Index(s.configs))
    case _ => None
  }

  lemma StoredAfterWrite(files: map<string, File>, path: string, v: View)
    requires WellFormed(v)
    ensures (exists s :: IsWireOf(s, v) && Read(files, path) == Some(Whole(s))) ==> Stored(files, path) == Some(v.byKey)
  {
    if exists s :: IsWireOf(s, v) && Read(files, path) == Some(Whole(s)) {
      var s :| IsWireOf(s, v) && Read(files, path) == Some(Whole(s));
      WireEntriesOf(v, s);
    }
  }

  lemma WireEntriesOf(v: View, s: Snapshot)
    requires WellFormed(v) && IsWireOf(s, v)
    ensures Index(s.configs) == v.byKey
  {
    assert KeysOf(s.configs) == v.keys;
    forall k | k in Index(s.configs) ensures Index(s.configs)[k] == v.byKey[k] {
      IndexAgrees(s.configs, v.byKey, k);
    }
  }

  lemma NonEmptyIfChanged(sub: seq<string>, prev: View, next: View, prefix: string)
    requires forall k :: k in sub <==> Changed(prev, next, k) && HasPrefix(k, prefix)
    ensures sub != [] <==> ChangedUnder(prev, next, prefix)
  {
    if sub != [] {
      assert sub[0] in sub;
    }
  }

  lemma DiffIsEmpty(prev: View, next: View, changed: seq<string>)
    requires WellFormed(prev) && WellFormed(next)
    requires forall k: string :: k in changed <==> Changed(prev, next, k)
    ensures changed == [] <==> prev.byKey == next.byKey
  {
    NothingChanged(prev, next);
    if changed != [] {
      assert Changed(prev, next, changed[0]);
    }
  }

  /** Same entries under a new revision: nobody's view is out of step. */
  lemma SilentMove(prev: View, next: View)
    requires prev.byKey == next.byKey
    ensures forall p: string :: !ChangedUnder(prev, next, p)
    ensures forall v: View, p: string :: AgreeUnder(v, prev, p) ==> AgreeUnder(v, next, p)
  {
    forall v: View, p: string | AgreeUnder(v, prev, p) ensures AgreeUnder(v, next, p) {
      forall k: string | HasPrefix(k, p) ensures !Changed(v, next, k) {
        assert !Changed(v, prev, k);
      }
    }
  }

  lemma StillAgrees(v: View, prev: View, next: View, p: string)
    requires AgreeUnder(v, prev, p)
    ensures !ChangedUnder(prev, next, p) ==> AgreeUnder(v, next, p)
    ensures AgreeUnder(next, next, p)
  {
    if !ChangedUnder(prev, next, p) {
      forall k: string | HasPrefix(k, p) ensures !Changed(v, next, k) {
        assert !Changed(v, prev, k) && !Changed(prev, next, k);
      }
    }
  }
}
