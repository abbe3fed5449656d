/** DB of store/store.go: the write template statement by statement, and the reads. */
module Store {
  import opened Basics
  import opened Schema
  import opened Prefixes

  /** What a write reports: a store error, or the database failed at some statement. */
  datatype Failure = Refused(error: Error) | DatabaseFailed

  /** The entries of one key, newest first; a positive limit keeps only that many. */
  function KeyHistory(h: seq<Entry>, key: string): (r: seq<Entry>)
    ensures forall i :: 0 <= i < |r| ==> r[i] in h && r[i].key == key
  {
    if h == [] then []
    else (if h[|h| - 1].key == key then [h[|h| - 1]] else []) + KeyHistory(h[..|h| - 1], key)
  }

  /** The history of a key counts down from its newest version to 1, without gaps, and
      holds every entry of the key. */
  lemma {:induction false} HistoryCountsDown(h: seq<Entry>, key: string)
    requires VersionsConsecutive(h)
    ensures var r := KeyHistory(h, key);
            && |r| == Count(h, key)
            && (forall i :: 0 <= i < |r| ==> r[i].version == |r| - i)
            && (forall e :: e in h && e.key == key ==> e in r)
  {
    if h != [] {
      var init, last := h[..|h| - 1], h[|h| - 1];
      InitConsecutive(h);
      HistoryCountsDown(init, key);
      assert last.version == Count(init, last.key) + 1;
      forall e | e in h && e.key == key ensures e in KeyHistory(h, key) {
        var i :| 0 <= i < |h| && h[i] == e;
        if i < |init| {
          assert init[i] == e;
        }
      }
    }
  }

  lemma InitConsecutive(h: seq<Entry>)
    requires h != [] && VersionsConsecutive(h)
    ensures VersionsConsecutive(h[..|h| - 1])
  {
    var init := h[..|h| - 1];
    forall i | 0 <= i < |init| ensures init[i].version == Count(init[..i], init[i].key) + 1 {
      assert init[i] == h[i] && init[..i] == h[..i];
    }
  }

  class DB {
    const syntax: Syntax
    var meta: Option<int>
    var config: map<string, Row>
    var history: seq<Entry>

    /** A migrated database. */
    constructor (syntax: Syntax)
      ensures this.syntax == syntax && Contents() == MIGRATED
    {
      this.syntax := syntax;
      meta, config, history := Some(0), map[], [];
    }

    function Contents(): Tables
      reads this
    {
      Tables(meta, config, history)
    }

    ghost predicate Valid()
      reads this
    {
      Consistent(syntax, Contents())
    }

    /** The transaction template of set, delete and rollback. failAt is the number of the
        statement at which the database itself fails, 0 for none. */
    method Write(r: Request, failAt: nat) returns (res: Result<Written, Failure>)
      modifies this
      ensures res.Err? ==> Contents() == old(Contents())
      ensures res.Ok? ==> (Contents(), Ok(res.value)) == Exec(syntax, old(Contents()), r)
      ensures res.Err? && res.error.Refused? ==> Exec(syntax, old(Contents()), r).1 == Err(res.error.error)
      ensures res.Ok? <==> Exec(syntax, old(Contents()), r).1.Ok? && !(1 <= failAt <= 7)
      ensures !(1 <= failAt <= 7) ==> res != Err(DatabaseFailed)
      ensures old(Valid()) ==> Valid()
    {
      if !ValidKey(r.key) {
        return Err(Refused(InvalidKey));
      }
      if !ValidChange(r.change) {
        return Err(Refused(InvalidChange));
      }
      ExecIsSafe(r);
      var meta0, config0, history0 := meta, config, history;
      res := Statements(r, failAt);
      if res.Err? {
        meta, config, history := meta0, config0, history0; // the deferred rollback
      }
    }

    lemma ExecIsSafe(r: Request)
      ensures Valid() ==> Consistent(syntax, Exec(syntax, Contents(), r).0)
    {
      if Valid() {
        ExecKeepsConsistent(syntax, Contents(), r);
      }
    }

    /** The statements of the transaction, in order; on an error some may have taken effect. */
    method Statements(r: Request, failAt: nat) returns (res: Result<Written, Failure>)
      requires ValidKey(r.key) && ValidChange(r.change)
      modifies this
      ensures res.Ok? ==> (Contents(), Ok(res.value)) == Exec(syntax, old(Contents()), r)
      ensures res.Err? && res.error.Refused? ==> Exec(syntax, old(Contents()), r).1 == Err(res.error.error)
      ensures res.Ok? <==> Exec(syntax, old(Contents()), r).1.Ok? && !(1 <= failAt <= 7)
      ensures !(1 <= failAt <= 7) ==> res != Err(DatabaseFailed)
    {
      if failAt == 1 { return Err(DatabaseFailed); }
      if meta.None? { return Err(Refused(NotMigrated)); }
      var rev := meta.value + 1;
      meta := Some(rev);

      if failAt == 2 { return Err(DatabaseFailed); }
      var cur := Lookup(config, r.key);

      if failAt == 3 { return Err(DatabaseFailed); }
      var resolved := Resolve(r, cur, history);
      if resolved.Err? { return Err(Refused(resolved.error)); }
      var (value, format) := resolved.value;
      if !ValidValue(syntax, value, format) { return Err(Refused(InvalidValue)); }

      if failAt == 4 { return Err(DatabaseFailed); }
      config := Put(config, r, value, format);

      if failAt == 5 { return Err(DatabaseFailed); }
      var version := MaxVersion(history, r.key) + 1;

      if failAt == 6 { return Err(DatabaseFailed); }
      history := history + [EntryFor(r, value, format, version)];

      if failAt == 7 { return Err(DatabaseFailed); } // the commit itself
      res := Ok(Written(rev, version));
    }

    /** The global watermark. */
    method Revision() returns (r: Result<int, Error>)
      ensures Valid() ==> r == Ok(|history|)
      ensures r == if meta.Some? then Ok(meta.value) else Err(NotMigrated)
    {
      r := if meta.Some? then Ok(meta.value) else Err(NotMigrated);
    }

    /** Versions of a key, newest first, also for a deleted key. */
    method History(key: string, limit: int) returns (r: Result<seq<Entry>, Error>)
      ensures r.Ok? <==> ValidKey(key)
      ensures r.Err? ==> r.error == InvalidKey
      ensures r.Ok? ==> r.value <= KeyHistory(history, key)
      ensures r.Ok? ==> |r.value| == if 0 < limit < Count(history, key) then limit else |KeyHistory(history, key)|
      ensures r.Ok? && Valid() ==>
                forall i :: 0 <= i < |r.value| ==> r.value[i].version == Count(history, key) - i
    {
      if !ValidKey(key) {
        return Err(InvalidKey);
      }
      var all := KeyHistory(history, key);
      KeyHistoryLength(history, key);
      if Valid() {
        HistoryCountsDown(history, key);
      }
      r := Ok(if 0 < limit < |all| then all[..limit] else all);
    }

    /** The rows under any of the prefixes, sorted by key. */
    method List(ps: seq<string>) returns (out: seq<Listed>)
      ensures IsListing(out, config, ps)
    {
      out := ListPrefixes(config, ps);
    }
  }

  lemma {:induction false} KeyHistoryLength(h: seq<Entry>, key: string)
    ensures |KeyHistory(h, key)| == Count(h, key)
  {
    if h != [] {
      KeyHistoryLength(h[..|h| - 1], key);
    }
  }
}
